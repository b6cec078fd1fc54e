/**
 The two-level page tables of virtual-memory/userprog/pagedir.c, with the processor's page directory
 register and translation lookaside buffer. Physical pages that hold directories and tables are known
 by number; the bits of a table entry (threads/pte.h is not part of this model) are its fields.
 */
module PageDir {
  import opened Machine
  import opened Reachability

  const ENTRIES := 1024
  const USER_PAGES := 0xC000_0000 / PAGE_SIZE

  type PageNo = x: int | 0 <= x < USER_PAGES

  datatype Pte = Pte(frame: int, present: bool, writable: bool, dirty: bool, accessed: bool)

  datatype TlbEntry = TlbEntry(frame: int, writable: bool, dirty: bool)

  /** Directories, tables, CR3 and the TLB of the active directory. */
  datatype Mmu = Mmu(
    dirs: map<int, seq<Option<int>>>,
    tables: map<int, seq<Pte>>,
    cr3: int,
    tlb: map<PageNo, TlbEntry>)

  const EMPTY_PTE := Pte(0, false, false, false, false)

  function PdNo(v: PageNo): nat { v / ENTRIES }

  function PtNo(v: PageNo): nat { v % ENTRIES }

  ghost predicate PointsTo(m: Mmu, pd: int, i: int, pt: int) {
    pd in m.dirs && 0 <= i < |m.dirs[pd]| && m.dirs[pd][i] == Some(pt)
  }

  /** Directories and tables are whole pages, and no table is shared. */
  ghost predicate Wf(m: Mmu) {
    && m.cr3 in m.dirs
    && (forall pd :: pd in m.dirs ==> |m.dirs[pd]| == ENTRIES)
    && (forall pt :: pt in m.tables ==> |m.tables[pt]| == ENTRIES)
    && (forall pd, i, pt :: PointsTo(m, pd, i, pt) ==> pt in m.tables)
    && (forall pd, i, pd', i', pt :: PointsTo(m, pd, i, pt) && PointsTo(m, pd', i', pt) ==> pd == pd' && i == i')
  }

  /** The table entry for page v in directory pd, if there is a table for it. */
  function Lookup(m: Mmu, pd: int, v: PageNo): Option<Pte>
    requires Wf(m) && pd in m.dirs
  {
    match m.dirs[pd][PdNo(v)]
    case None => None
    case Some(pt) =>
      assert PointsTo(m, pd, PdNo(v), pt);
      Some(m.tables[pt][PtNo(v)])
  }

  /** The partial map a directory stands for. */
  function Frame(m: Mmu, pd: int, v: PageNo): Option<int>
    requires Wf(m) && pd in m.dirs
  {
    match Lookup(m, pd, v)
    case None => None
    case Some(e) => if e.present then Some(e.frame) else None
  }

  /** Store to an existing table entry. */
  function Poke(m: Mmu, pd: int, v: PageNo, e: Pte): Mmu
    requires Wf(m) && pd in m.dirs && m.dirs[pd][PdNo(v)].Some?
  {
    var pt := m.dirs[pd][PdNo(v)].value;
    assert PointsTo(m, pd, PdNo(v), pt);
    m.(tables := m.tables[pt := m.tables[pt][PtNo(v) := e]])
  }

  /** Two pages with the same directory and table index are the same page. */
  lemma IndicesDetermine(v: PageNo, u: PageNo)
    requires PdNo(v) == PdNo(u) && PtNo(v) == PtNo(u)
    ensures v == u
  {
  }

  /** A store to one entry is seen there and nowhere else, in this and in every other directory. */
  lemma PokeIsLocal(m: Mmu, pd: int, v: PageNo, e: Pte)
    requires Wf(m) && pd in m.dirs && m.dirs[pd][PdNo(v)].Some?
    ensures Wf(Poke(m, pd, v, e))
    ensures forall d, u: PageNo :: d in m.dirs ==>
              Lookup(Poke(m, pd, v, e), d, u) == if d == pd && u == v then Some(e) else Lookup(m, d, u)
  {
    var pt := m.dirs[pd][PdNo(v)].value;
    var r := Poke(m, pd, v, e);
    assert PointsTo(m, pd, PdNo(v), pt);
    assert forall d, i, t :: PointsTo(r, d, i, t) <==> PointsTo(m, d, i, t);
    forall d, u: PageNo | d in m.dirs
      ensures Lookup(r, d, u) == if d == pd && u == v then Some(e) else Lookup(m, d, u)
    {
      if m.dirs[d][PdNo(u)].Some? {
        var t := m.dirs[d][PdNo(u)].value;
        assert PointsTo(m, d, PdNo(u), t);
        if t == pt && PtNo(u) == PtNo(v) {
          IndicesDetermine(u, v);
        }
      }
    }
  }

  /** lookup_page's creation of a table, in a zeroed page nobody uses. */
  function AddTable(m: Mmu, pd: int, v: PageNo, pt: int): Mmu
    requires Wf(m) && pd in m.dirs
  {
    m.(dirs := m.dirs[pd := m.dirs[pd][PdNo(v) := Some(pt)]], tables := m.tables[pt := seq(ENTRIES, _ => EMPTY_PTE)])
  }

  lemma AddTableMapsNothing(m: Mmu, pd: int, v: PageNo, pt: int)
    requires Wf(m) && pd in m.dirs && m.dirs[pd][PdNo(v)] == None && pt !in m.tables
    ensures Wf(AddTable(m, pd, v, pt))
    ensures forall d, u: PageNo :: d in m.dirs ==>
              Lookup(AddTable(m, pd, v, pt), d, u) ==
                if d == pd && PdNo(u) == PdNo(v) then Some(EMPTY_PTE) else Lookup(m, d, u)
  {
    var r := AddTable(m, pd, v, pt);
    forall d, i, t | PointsTo(r, d, i, t) ensures PointsTo(m, d, i, t) || (d == pd && i == PdNo(v) && t == pt) {
    }
    forall d, i, t | PointsTo(m, d, i, t) ensures PointsTo(r, d, i, t) && t != pt {
    }
    forall d, u: PageNo | d in m.dirs
      ensures Lookup(r, d, u) == if d == pd && PdNo(u) == PdNo(v) then Some(EMPTY_PTE) else Lookup(m, d, u)
    {
      if m.dirs[d][PdNo(u)].Some? {
        assert PointsTo(m, d, PdNo(u), m.dirs[d][PdNo(u)].value);
      }
    }
  }

  /** The TLB does not affect lookups. */
  lemma TlbIrrelevant(m: Mmu, r: Mmu)
    requires Wf(m) && r == m.(tlb := r.tlb)
    ensures Wf(r)
    ensures forall d, u: PageNo :: d in m.dirs ==> Lookup(r, d, u) == Lookup(m, d, u)
  {
    assert forall d, i, t :: PointsTo(r, d, i, t) <==> PointsTo(m, d, i, t);
  }

  // ---------------------------------------------------------------- the operations

  /** pagedir_create, in a page that holds no directory: nothing is mapped. */
  function Create(m: Mmu, pd: int): Mmu {
    m.(dirs := m.dirs[pd := seq(ENTRIES, _ => None)])
  }

  /** pagedir_destroy: the tables of the directory are freed, then the directory. */
  function Destroy(m: Mmu, pd: int): Mmu
    requires pd in m.dirs
  {
    m.(dirs := m.dirs - {pd}, tables := map pt | pt in m.tables && Some(pt) !in m.dirs[pd] :: m.tables[pt])
  }

  /** lookup_page with create: the entry's table, allocated at pt if need be and possible. */
  function WithTable(m: Mmu, pd: int, v: PageNo, pt: Option<int>): Option<Mmu>
    requires Wf(m) && pd in m.dirs
  {
    if m.dirs[pd][PdNo(v)].Some? then Some(m)
    else if pt.Some? then Some(AddTable(m, pd, v, pt.value))
    else None
  }

  /** pagedir_set_page. */
  function SetPage(m: Mmu, pd: int, v: PageNo, frame: int, writable: bool, pt: Option<int>): Option<Mmu>
    requires Wf(m) && pd in m.dirs && (pt.Some? ==> pt.value !in m.tables)
  {
    match WithTable(m, pd, v, pt)
    case None => None
    case Some(w) =>
      assert Wf(w) by { if m.dirs[pd][PdNo(v)] == None { AddTableMapsNothing(m, pd, v, pt.value); } }
      Some(Poke(w, pd, v, Pte(frame, true, writable, false, false)))
  }

  /** invalidate_pagedir: reloading CR3 empties the TLB. */
  function Invalidate(m: Mmu, pd: int): Mmu {
    if m.cr3 == pd then m.(tlb := map[]) else m
  }

  /** pagedir_clear_page. */
  function ClearPage(m: Mmu, pd: int, v: PageNo): Mmu
    requires Wf(m) && pd in m.dirs
  {
    match Lookup(m, pd, v)
    case None => m
    case Some(e) => if e.present then Invalidate(Poke(m, pd, v, e.(present := false)), pd) else m
  }

  /** pagedir_set_dirty. */
  function SetDirty(m: Mmu, pd: int, v: PageNo, dirty: bool): Mmu
    requires Wf(m) && pd in m.dirs
  {
    match Lookup(m, pd, v)
    case None => m
    case Some(e) =>
      var r := Poke(m, pd, v, e.(dirty := dirty));
      if dirty then r else Invalidate(r, pd)
  }

  /** pagedir_set_accessed. */
  function SetAccessed(m: Mmu, pd: int, v: PageNo, accessed: bool): Mmu
    requires Wf(m) && pd in m.dirs
  {
    match Lookup(m, pd, v)
    case None => m
    case Some(e) =>
      var r := Poke(m, pd, v, e.(accessed := accessed));
      if accessed then r else Invalidate(r, pd)
  }

  /** pagedir_activate. */
  function Activate(m: Mmu, pd: int): Mmu { m.(cr3 := pd, tlb := map[]) }

  /** What the processor does on its own: load a present entry, drop one, or store through one. */
  function Fill(m: Mmu, v: PageNo): Mmu
    requires Wf(m)
  {
    match Lookup(m, m.cr3, v)
    case None => m
    case Some(e) =>
      if e.present then Poke(m, m.cr3, v, e.(accessed := true)).(tlb := m.tlb[v := TlbEntry(e.frame, e.writable, e.dirty)])
      else m
  }

  function Drop(m: Mmu, v: PageNo): Mmu { m.(tlb := m.tlb - {v}) }

  /** A store through a TLB entry sets the dirty bit in memory only if the TLB does not already say dirty. */
  function Store(m: Mmu, v: PageNo): Mmu
    requires Wf(m) && v in m.tlb && m.tlb[v].writable
  {
    match Lookup(m, m.cr3, v)
    case None => m
    case Some(e) =>
      if m.tlb[v].dirty then m
      else Poke(m, m.cr3, v, e.(dirty := true)).(tlb := m.tlb[v := m.tlb[v].(dirty := true)])
  }

  // ---------------------------------------------------------------- refinement of a partial map

  /** pagedir_set_page adds exactly one page to exactly one directory's map. */
  lemma SetPageRefines(m: Mmu, pd: int, v: PageNo, frame: int, writable: bool, pt: Option<int>)
    requires Wf(m) && pd in m.dirs && (pt.Some? ==> pt.value !in m.tables)
    ensures SetPage(m, pd, v, frame, writable, pt).None? <==> m.dirs[pd][PdNo(v)] == None && pt == None
    ensures
      SetPage(m, pd, v, frame, writable, pt).Some? ==>
        var r := SetPage(m, pd, v, frame, writable, pt).value;
        && Wf(r) && r.dirs.Keys == m.dirs.Keys && r.cr3 == m.cr3 && r.tlb == m.tlb
        && Lookup(r, pd, v) == Some(Pte(frame, true, writable, false, false))
        && forall d, u: PageNo :: d in m.dirs && !(d == pd && u == v) ==>
             Frame(r, d, u) == Frame(m, d, u) && (Lookup(m, d, u).Some? ==> Lookup(r, d, u) == Lookup(m, d, u))
  {
    if SetPage(m, pd, v, frame, writable, pt).Some? {
      var w := WithTable(m, pd, v, pt).value;
      if m.dirs[pd][PdNo(v)] == None {
        AddTableMapsNothing(m, pd, v, pt.value);
      }
      PokeIsLocal(w, pd, v, Pte(frame, true, writable, false, false));
    }
  }

  /** pagedir_clear_page removes exactly that page, keeping the entry's other bits. */
  lemma ClearPageRefines(m: Mmu, pd: int, v: PageNo)
    requires Wf(m) && pd in m.dirs
    ensures Wf(ClearPage(m, pd, v)) && ClearPage(m, pd, v).dirs == m.dirs && ClearPage(m, pd, v).cr3 == m.cr3
    ensures Frame(ClearPage(m, pd, v), pd, v) == None
    ensures Lookup(m, pd, v).Some? ==> Lookup(ClearPage(m, pd, v), pd, v) == Some(Lookup(m, pd, v).value.(present := false))
    ensures forall d, u: PageNo :: d in m.dirs && !(d == pd && u == v) ==> Lookup(ClearPage(m, pd, v), d, u) == Lookup(m, d, u)
  {
    if Lookup(m, pd, v).Some? && Lookup(m, pd, v).value.present {
      var w := Poke(m, pd, v, Lookup(m, pd, v).value.(present := false));
      PokeIsLocal(m, pd, v, Lookup(m, pd, v).value.(present := false));
      TlbIrrelevant(w, Invalidate(w, pd));
    }
  }

  // ---------------------------------------------------------------- the TLB

  /** Every TLB entry agrees with a present entry of the active directory; a dirty TLB entry means a dirty bit in memory. */
  ghost predicate TlbOk(m: Mmu)
    requires Wf(m)
  {
    forall v :: v in m.tlb ==>
      && Lookup(m, m.cr3, v).Some?
      && var e := Lookup(m, m.cr3, v).value;
         e.present && e.accessed && e.frame == m.tlb[v].frame && e.writable == m.tlb[v].writable
         && (m.tlb[v].dirty ==> e.dirty)
  }

  // ---------------------------------------------------------------- runs

  type Page = (int, PageNo)

  /**
   What the interface promises: the directory last switched to; the mapped pages and which of them were mapped
   writable; the pages written, used, and marked accessed (by the processor on loading a TLB entry, or by hand)
   since their bit was last cleared.
   */
  datatype Promise = Promise(
    active: int,
    maps: map<Page, int>,
    writable: set<Page>,
    written: set<Page>,
    used: set<Page>,
    marked: set<Page>)

  datatype World = World(m: Mmu, p: Promise)

  datatype Op =
    | CreateDir(pd: int)
    | DestroyDir(pd: int)
    | Set(pd: int, v: PageNo, frame: int, writable: bool, pt: Option<int>)
    | Clear(pd: int, v: PageNo)
    | Dirty(pd: int, v: PageNo, value: bool)
    | Accessed(pd: int, v: PageNo, value: bool)
    | Switch(pd: int)
    | TlbFill(v: PageNo)
    | TlbDrop(v: PageNo)
    | UserLoad(v: PageNo)
    | UserStore(v: PageNo)

  /** When an operation may happen: the assertions of the code, fresh pages, and a TLB entry for a user access. */
  ghost predicate Enabled(m: Mmu, op: Op)
    requires Wf(m)
  {
    match op
    case CreateDir(pd) => pd !in m.dirs
    case DestroyDir(pd) => pd in m.dirs && pd != m.cr3
    case Set(pd, v, _, _, pt) =>
      && pd in m.dirs && Frame(m, pd, v) == None && (pt.Some? ==> pt.value !in m.tables)
      && (m.dirs[pd][PdNo(v)] == None ==> pt.Some?)
    case Clear(pd, _) => pd in m.dirs
    case Dirty(pd, _, _) => pd in m.dirs
    case Accessed(pd, _, _) => pd in m.dirs
    case Switch(pd) => pd in m.dirs
    case TlbFill(_) => true
    case TlbDrop(_) => true
    case UserLoad(v) => v in m.tlb
    case UserStore(v) => v in m.tlb && m.tlb[v].writable
  }

  ghost function Apply(m: Mmu, op: Op): Mmu
    requires Wf(m) && Enabled(m, op)
  {
    match op
    case CreateDir(pd) => Create(m, pd)
    case DestroyDir(pd) => Destroy(m, pd)
    case Set(pd, v, frame, writable, pt) => SetPage(m, pd, v, frame, writable, pt).value
    case Clear(pd, v) => ClearPage(m, pd, v)
    case Dirty(pd, v, value) => SetDirty(m, pd, v, value)
    case Accessed(pd, v, value) => SetAccessed(m, pd, v, value)
    case Switch(pd) => Activate(m, pd)
    case TlbFill(v) => Fill(m, v)
    case TlbDrop(v) => Drop(m, v)
    case UserLoad(_) => m
    case UserStore(v) => Store(m, v)
  }

  /** The same operation on the promise, without tables, CR3 or TLB; installed says whether the page has a table entry. */
  ghost function Promised(p: Promise, installed: bool, op: Op): Promise {
    match op
    case CreateDir(_) => p
    case DestroyDir(pd) =>
      Promise(p.active,
              map x | x in p.maps && x.0 != pd :: p.maps[x],
              set x | x in p.writable && x.0 != pd,
              set x | x in p.written && x.0 != pd,
              set x | x in p.used && x.0 != pd,
              set x | x in p.marked && x.0 != pd)
    case Set(pd, v, frame, writable, _) =>
      Promise(p.active,
              p.maps[(pd, v) := frame],
              With(p.writable, (pd, v), writable),
              p.written - {(pd, v)},
              p.used - {(pd, v)},
              p.marked - {(pd, v)})
    case Clear(pd, v) => p.(maps := p.maps - {(pd, v)})
    case Dirty(pd, v, value) => p.(written := With(p.written, (pd, v), value && installed))
    case Accessed(pd, v, value) =>
      p.(marked := With(p.marked, (pd, v), value && installed), used := if value then p.used else p.used - {(pd, v)})
    case Switch(pd) => p.(active := pd)
    case TlbFill(v) => if (p.active, v) in p.maps then p.(marked := p.marked + {(p.active, v)}) else p
    case TlbDrop(_) => p
    case UserLoad(v) => p.(used := p.used + {(p.active, v)})
    case UserStore(v) => p.(written := p.written + {(p.active, v)}, used := p.used + {(p.active, v)})
  }

  /** The set with x in it, or out of it. */
  ghost function With(s: set<Page>, x: Page, member: bool): set<Page> {
    if member then s + {x} else s - {x}
  }

  ghost predicate Installed(m: Mmu, op: Op)
    requires Wf(m)
  {
    (op.Dirty? || op.Accessed?) && op.pd in m.dirs && Lookup(m, op.pd, op.v).Some?
  }

  ghost predicate Step(w: World, w': World) {
    Wf(w.m) && exists op: Op :: Enabled(w.m, op) && w' == World(Apply(w.m, op), Promised(w.p, Installed(w.m, op), op))
  }

  ghost predicate IsDirty(m: Mmu, d: int, u: PageNo)
    requires Wf(m) && d in m.dirs
  {
    Lookup(m, d, u).Some? && Lookup(m, d, u).value.dirty
  }

  ghost predicate IsAccessed(m: Mmu, d: int, u: PageNo)
    requires Wf(m) && d in m.dirs
  {
    Lookup(m, d, u).Some? && Lookup(m, d, u).value.accessed
  }

  ghost predicate Agrees(m: Mmu, p: Promise, d: int, u: PageNo)
    requires Wf(m) && d in m.dirs
  {
    && Frame(m, d, u) == (if (d, u) in p.maps then Some(p.maps[(d, u)]) else None)
    && ((d, u) in p.maps ==> (Lookup(m, d, u).value.writable <==> (d, u) in p.writable))
    && (IsDirty(m, d, u) <==> (d, u) in p.written)
    && (IsAccessed(m, d, u) <==> (d, u) in p.marked)
    && ((d, u) in p.used ==> (d, u) in p.marked)
  }

  /** No promise about a directory that does not exist. */
  ghost predicate Scoped(m: Mmu, p: Promise) {
    forall x: Page :: x in p.maps || x in p.writable || x in p.written || x in p.used || x in p.marked ==> x.0 in m.dirs
  }

  ghost predicate Keeps(m: Mmu, p: Promise) {
    && Wf(m) && TlbOk(m) && m.cr3 == p.active && Scoped(m, p)
    && forall d, u: PageNo :: d in m.dirs ==> Agrees(m, p, d, u)
  }

  /** The state that differs from m in the entry for one page of one directory, and perhaps in an emptied TLB. */
  ghost predicate Changes(m: Mmu, pd: int, v: PageNo, e: Pte, r: Mmu)
    requires Wf(m)
  {
    && pd in m.dirs && Wf(r) && r.dirs == m.dirs && r.cr3 == m.cr3
    && forall d, u: PageNo :: d in m.dirs ==> Lookup(r, d, u) == if d == pd && u == v then Some(e) else Lookup(m, d, u)
  }

  lemma PokeChanges(m: Mmu, pd: int, v: PageNo, e: Pte, tlb: map<PageNo, TlbEntry>, r: Mmu)
    requires Wf(m) && pd in m.dirs && Lookup(m, pd, v).Some? && r == Poke(m, pd, v, e).(tlb := tlb)
    ensures Changes(m, pd, v, e, r)
  {
    PokeIsLocal(m, pd, v, e);
    TlbIrrelevant(Poke(m, pd, v, e), r);
  }

  lemma CreateKeeps(m: Mmu, p: Promise, pd: int, r: Mmu)
    requires Keeps(m, p) && pd !in m.dirs && r == Create(m, pd)
    ensures Keeps(r, p)
  {
    forall d, i, t | PointsTo(r, d, i, t) ensures PointsTo(m, d, i, t) {
    }
    forall d, u: PageNo | d in m.dirs ensures Lookup(r, d, u) == Lookup(m, d, u) && Agrees(r, p, d, u) {
      assert Agrees(m, p, d, u);
    }
    forall u: PageNo ensures Agrees(r, p, pd, u) {
      assert (pd, u).0 !in m.dirs;
    }
  }

  lemma DestroyedLookup(m: Mmu, pd: int, r: Mmu)
    requires Wf(m) && pd in m.dirs && pd != m.cr3 && r == Destroy(m, pd)
    ensures Wf(r)
    ensures forall d, u: PageNo :: d in r.dirs ==> Lookup(r, d, u) == Lookup(m, d, u)
  {
    forall d, i, t | PointsTo(r, d, i, t) ensures PointsTo(m, d, i, t) && t in r.tables {
      assert PointsTo(m, d, i, t);
      if Some(t) in m.dirs[pd] {
        var j :| 0 <= j < |m.dirs[pd]| && m.dirs[pd][j] == Some(t);
        assert PointsTo(m, pd, j, t);
      }
    }
    forall d, u: PageNo | d in r.dirs ensures Lookup(r, d, u) == Lookup(m, d, u) {
      if m.dirs[d][PdNo(u)].Some? {
        assert PointsTo(r, d, PdNo(u), m.dirs[d][PdNo(u)].value);
      }
    }
  }

  lemma DestroyKeeps(m: Mmu, p: Promise, pd: int, r: Mmu, q: Promise)
    requires Keeps(m, p) && pd in m.dirs && pd != m.cr3 && r == Destroy(m, pd)
    requires q == Promised(p, false, DestroyDir(pd))
    ensures Keeps(r, q)
  {
    DestroyedLookup(m, pd, r);
    forall d, u: PageNo | d in r.dirs ensures Agrees(r, q, d, u) {
      assert Agrees(m, p, d, u);
    }
  }

  lemma SetKeeps(m: Mmu, p: Promise, op: Op, r: Mmu, q: Promise)
    requires Keeps(m, p) && op.Set? && Enabled(m, op) && r == Apply(m, op) && q == Promised(p, false, op)
    ensures Keeps(r, q)
  {
    SetPageRefines(m, op.pd, op.v, op.frame, op.writable, op.pt);
    forall d, u: PageNo | d in r.dirs ensures Agrees(r, q, d, u) {
      assert Agrees(m, p, d, u);
      if !(d == op.pd && u == op.v) {
        SetElsewhere(m, op, r, d, u);
      }
    }
  }

  /** The entries of a table pagedir_set_page creates are neither dirty nor accessed. */
  lemma SetElsewhere(m: Mmu, op: Op, r: Mmu, d: int, u: PageNo)
    requires Wf(m) && op.Set? && Enabled(m, op) && r == Apply(m, op) && Wf(r)
    requires d in m.dirs && d in r.dirs && !(d == op.pd && u == op.v)
    ensures Frame(r, d, u) == Frame(m, d, u)
    ensures (IsDirty(r, d, u) <==> IsDirty(m, d, u)) && (IsAccessed(r, d, u) <==> IsAccessed(m, d, u))
  {
    var w := WithTable(m, op.pd, op.v, op.pt).value;
    if m.dirs[op.pd][PdNo(op.v)] == None {
      AddTableMapsNothing(m, op.pd, op.v, op.pt.value);
    }
    PokeIsLocal(w, op.pd, op.v, Pte(op.frame, true, op.writable, false, false));
  }

  /** The two promises say the same about page x. */
  ghost predicate SameFor(p: Promise, q: Promise, x: Page) {
    && (x in p.maps <==> x in q.maps) && (x in p.maps ==> p.maps[x] == q.maps[x])
    && (x in p.writable <==> x in q.writable) && (x in p.written <==> x in q.written)
    && (x in p.used <==> x in q.used) && (x in p.marked <==> x in q.marked)
  }

  /** An operation that rewrites one entry keeps the promise if the entry keeps it and the TLB stays in step. */
  lemma ChangeKeeps(m: Mmu, p: Promise, pd: int, v: PageNo, e: Pte, r: Mmu, q: Promise)
    requires Keeps(m, p) && Changes(m, pd, v, e, r) && q.active == p.active
    requires forall x: Page :: x != (pd, v) ==> SameFor(p, q, x)
    requires Agrees(r, q, pd, v) && TlbOk(r)
    ensures Keeps(r, q)
  {
    forall d, u: PageNo | d in r.dirs ensures Agrees(r, q, d, u) {
      assert Agrees(m, p, d, u);
      assert (d, u) != (pd, v) ==> SameFor(p, q, (d, u));
    }
    forall x: Page | x in q.maps || x in q.writable || x in q.written || x in q.used || x in q.marked ensures x.0 in r.dirs {
      assert x != (pd, v) ==> SameFor(p, q, x);
    }
  }

  lemma ClearKeeps(m: Mmu, p: Promise, pd: int, v: PageNo, r: Mmu, q: Promise)
    requires Keeps(m, p) && pd in m.dirs && r == ClearPage(m, pd, v)
    requires q == Promised(p, false, Clear(pd, v))
    ensures Keeps(r, q)
  {
    assert Agrees(m, p, pd, v);
    if Frame(m, pd, v).Some? {
      var e := Lookup(m, pd, v).value.(present := false);
      PokeChanges(m, pd, v, e, r.tlb, r);
      ChangeKeeps(m, p, pd, v, e, r, q);
    } else {
      assert q.maps == p.maps;
    }
  }

  lemma DirtyKeeps(m: Mmu, p: Promise, op: Op, r: Mmu, q: Promise)
    requires Keeps(m, p) && op.Dirty? && Enabled(m, op) && r == Apply(m, op)
    requires q == Promised(p, Installed(m, op), op)
    ensures Keeps(r, q)
  {
    assert Agrees(m, p, op.pd, op.v);
    if Lookup(m, op.pd, op.v).Some? {
      var e := Lookup(m, op.pd, op.v).value.(dirty := op.value);
      PokeChanges(m, op.pd, op.v, e, r.tlb, r);
      ChangeKeeps(m, p, op.pd, op.v, e, r, q);
    } else {
      assert !IsDirty(m, op.pd, op.v) && q.written == p.written;
    }
  }

  lemma AccessedKeeps(m: Mmu, p: Promise, op: Op, r: Mmu, q: Promise)
    requires Keeps(m, p) && op.Accessed? && Enabled(m, op) && r == Apply(m, op)
    requires q == Promised(p, Installed(m, op), op)
    ensures Keeps(r, q)
  {
    assert Agrees(m, p, op.pd, op.v);
    if Lookup(m, op.pd, op.v).Some? {
      var e := Lookup(m, op.pd, op.v).value.(accessed := op.value);
      PokeChanges(m, op.pd, op.v, e, r.tlb, r);
      ChangeKeeps(m, p, op.pd, op.v, e, r, q);
    } else {
      assert !IsAccessed(m, op.pd, op.v) && q == p;
    }
  }

  lemma FillKeeps(m: Mmu, p: Promise, v: PageNo, r: Mmu, q: Promise)
    requires Keeps(m, p) && r == Fill(m, v) && q == Promised(p, false, TlbFill(v))
    ensures Keeps(r, q)
  {
    assert Agrees(m, p, m.cr3, v);
    if Frame(m, m.cr3, v).Some? {
      var e := Lookup(m, m.cr3, v).value.(accessed := true);
      PokeChanges(m, m.cr3, v, e, r.tlb, r);
      ChangeKeeps(m, p, m.cr3, v, e, r, q);
    }
  }

  lemma UserLoadKeeps(m: Mmu, p: Promise, v: PageNo, q: Promise)
    requires Keeps(m, p) && v in m.tlb && q == Promised(p, false, UserLoad(v))
    ensures Keeps(m, q)
  {
    assert Agrees(m, p, m.cr3, v) && IsAccessed(m, m.cr3, v);
    forall d, u: PageNo | d in m.dirs ensures Agrees(m, q, d, u) {
      assert Agrees(m, p, d, u);
    }
  }

  lemma UserStoreKeeps(m: Mmu, p: Promise, v: PageNo, r: Mmu, q: Promise)
    requires Keeps(m, p) && v in m.tlb && m.tlb[v].writable && r == Store(m, v)
    requires q == Promised(p, false, UserStore(v))
    ensures Keeps(r, q)
  {
    assert Agrees(m, p, m.cr3, v);
    var e := Lookup(m, m.cr3, v).value.(dirty := true);
    if m.tlb[v].dirty {
      assert Changes(m, m.cr3, v, e, r);
    } else {
      PokeChanges(m, m.cr3, v, e, r.tlb, r);
    }
    ChangeKeeps(m, p, m.cr3, v, e, r, q);
  }

  /** Switching directories or losing TLB entries changes no page. */
  lemma TlbKeeps(m: Mmu, p: Promise, r: Mmu, q: Promise)
    requires Keeps(m, p) && r.cr3 in m.dirs && r == m.(cr3 := r.cr3, tlb := r.tlb) && q == p.(active := r.cr3)
    requires forall v :: v in r.tlb ==> r.cr3 == m.cr3 && v in m.tlb && r.tlb[v] == m.tlb[v]
    ensures Keeps(r, q)
  {
    assert forall d, i, t :: PointsTo(r, d, i, t) <==> PointsTo(m, d, i, t);
    forall d, u: PageNo | d in m.dirs ensures Lookup(r, d, u) == Lookup(m, d, u) && Agrees(r, q, d, u) {
      assert Agrees(m, p, d, u);
    }
  }

  /** Every operation keeps the promise and the agreement of TLB and tables. */
  lemma StepKeeps(m: Mmu, p: Promise, op: Op)
    requires Keeps(m, p) && Enabled(m, op)
    ensures Keeps(Apply(m, op), Promised(p, Installed(m, op), op))
  {
    var r := Apply(m, op);
    var q := Promised(p, Installed(m, op), op);
    match op
    case CreateDir(pd) => CreateKeeps(m, p, pd, r);
    case DestroyDir(pd) => DestroyKeeps(m, p, pd, r, q);
    case Set(_, _, _, _, _) => SetKeeps(m, p, op, r, q);
    case Clear(pd, v) => ClearKeeps(m, p, pd, v, r, q);
    case Dirty(_, _, _) => DirtyKeeps(m, p, op, r, q);
    case Accessed(_, _, _) => AccessedKeeps(m, p, op, r, q);
    case Switch(_) => TlbKeeps(m, p, r, q);
    case TlbFill(v) => FillKeeps(m, p, v, r, q);
    case TlbDrop(_) => TlbKeeps(m, p, r, q);
    case UserLoad(v) => UserLoadKeeps(m, p, v, q);
    case UserStore(v) => UserStoreKeeps(m, p, v, r, q);
  }

  ghost predicate Good(w: World) { Keeps(w.m, w.p) }

  lemma StepKeepsGood(a: World, b: World)
    requires Good(a) && Step(a, b)
    ensures Good(b)
  {
    var op: Op :| Enabled(a.m, op) && b == World(Apply(a.m, op), Promised(a.p, Installed(a.m, op), op));
    StepKeeps(a.m, a.p, op);
  }

  lemma RunsKeepPromise(a: World, n: nat, b: World)
    requires Good(a) && Reaches((x, y) => Step(x, y), a, n, b)
    ensures Good(b)
  {
    forall x: World, y: World | Good(x) && Step(x, y) ensures Good(y) {
      StepKeepsGood(x, y);
    }
    RunsKeep((x, y) => Step(x, y), x => Good(x), a, n, b);
  }

  /** One directory with nothing mapped: what pagedir_create and pagedir_activate give at first. */
  function Boot(pd: int): World {
    World(Create(Mmu(map[], map[], pd, map[]), pd), Promise(pd, map[], {}, {}, {}, {}))
  }

  /**
   Over every run the directory last switched to is the active one; a user access that goes through the TLB
   reaches the frame its page was last mapped to there, and can store only if it was mapped writable;
   pagedir_get_page, pagedir_is_dirty and pagedir_is_accessed answer from the history alone, and a used page
   reads as accessed.
   */
  lemma RunsRefineMaps(pd: int, n: nat, w: World, d: int, v: PageNo)
    requires Reaches((x, y) => Step(x, y), Boot(pd), n, w)
    ensures Wf(w.m)
    ensures w.m.cr3 == w.p.active
    ensures v in w.m.tlb ==> (w.p.active, v) in w.p.maps && w.m.tlb[v].frame == w.p.maps[(w.p.active, v)]
    ensures v in w.m.tlb ==> (w.m.tlb[v].writable <==> (w.p.active, v) in w.p.writable)
    ensures d in w.m.dirs ==> Frame(w.m, d, v) == if (d, v) in w.p.maps then Some(w.p.maps[(d, v)]) else None
    ensures d in w.m.dirs ==> (IsDirty(w.m, d, v) <==> (d, v) in w.p.written)
    ensures d in w.m.dirs ==> (IsAccessed(w.m, d, v) <==> (d, v) in w.p.marked)
    ensures d in w.m.dirs && (d, v) in w.p.used ==> IsAccessed(w.m, d, v)
  {
    BootIsGood(pd);
    RunsKeepPromise(Boot(pd), n, w);
    assert d in w.m.dirs ==> Agrees(w.m, w.p, d, v);
    assert Agrees(w.m, w.p, w.m.cr3, v);
  }

  lemma BootIsGood(pd: int)
    ensures Good(Boot(pd))
  {
    assert forall d, i, t :: !PointsTo(Boot(pd).m, d, i, t);
  }

  /** Setting or clearing one bit of an entry. */
  lemma BitIsSet(m: Mmu, pd: int, v: PageNo, value: bool)
    requires Wf(m) && pd in m.dirs
    ensures
      var r, s := SetDirty(m, pd, v, value), SetAccessed(m, pd, v, value);
      && Wf(r) && r.dirs == m.dirs && Wf(s) && s.dirs == m.dirs
      && if Lookup(m, pd, v).Some? then
           && Lookup(r, pd, v) == Some(Lookup(m, pd, v).value.(dirty := value))
           && Lookup(s, pd, v) == Some(Lookup(m, pd, v).value.(accessed := value))
         else r == m && s == m
  {
    if Lookup(m, pd, v).Some? {
      var e := Lookup(m, pd, v).value;
      var r, s := SetDirty(m, pd, v, value), SetAccessed(m, pd, v, value);
      PokeChanges(m, pd, v, e.(dirty := value), r.tlb, r);
      PokeChanges(m, pd, v, e.(accessed := value), s.tlb, s);
    }
  }

  // ---------------------------------------------------------------- a page that is set can be used

  lemma OpStep(w: World, op: Op) returns (r: World)
    requires Good(w) && Enabled(w.m, op)
    ensures Good(r) && Step(w, r) && r == World(Apply(w.m, op), Promised(w.p, Installed(w.m, op), op))
  {
    r := World(Apply(w.m, op), Promised(w.p, Installed(w.m, op), op));
    StepKeeps(w.m, w.p, op);
  }

  /**
   From every state a run can reach: setting a page that is not mapped, switching to its directory, loading its
   TLB entry and storing through it is a run; the store goes to the frame set, and the page then reads as dirty and accessed.
   */
  lemma SetPageIsUsable(w: World, pd: int, v: PageNo, frame: int, pt: Option<int>) returns (r: World)
    requires Good(w) && pd in w.m.dirs && (pd, v) !in w.p.maps && (pt.Some? ==> pt.value !in w.m.tables)
    requires w.m.dirs[pd][PdNo(v)] == None ==> pt.Some?
    ensures Reaches((x, y) => Step(x, y), w, 4, r) && Good(r)
    ensures r.m.cr3 == pd && v in r.m.tlb && r.m.tlb[v].frame == frame
    ensures IsDirty(r.m, pd, v) && IsAccessed(r.m, pd, v) && r.p.maps == w.p.maps[(pd, v) := frame]
  {
    assert Agrees(w.m, w.p, pd, v);
    SetPageRefines(w.m, pd, v, frame, true, pt);
    var a := OpStep(w, Set(pd, v, frame, true, pt));
    var b := OpStep(a, Switch(pd));
    assert Agrees(b.m, b.p, pd, v);
    var c := OpStep(b, TlbFill(v));
    Filled(b.m, v, c.m);
    assert Agrees(c.m, c.p, pd, v);
    r := OpStep(c, UserStore(v));
    assert Agrees(r.m, r.p, pd, v);
    hide Step, Good;
    FourSteps(w, a, b, c, r);
  }

  lemma Filled(m: Mmu, v: PageNo, r: Mmu)
    requires Wf(m) && Frame(m, m.cr3, v).Some? && r == Fill(m, v)
    ensures v in r.tlb && r.tlb[v].frame == Frame(m, m.cr3, v).value && r.tlb[v].writable == Lookup(m, m.cr3, v).value.writable
    ensures r.cr3 == m.cr3
  {
  }

  lemma FourSteps(w: World, a: World, b: World, c: World, r: World)
    requires Step(w, a) && Step(a, b) && Step(b, c) && Step(c, r)
    ensures Reaches((x, y) => Step(x, y), w, 4, r)
  {
    hide Step;
    var step := (x, y) => Step(x, y);
    assert Reaches(step, w, 0, w);
    ThenStep(step, w, 0, w, a);
    ThenStep(step, w, 1, a, b);
    ThenStep(step, w, 2, b, c);
    ThenStep(step, w, 3, c, r);
  }

  // ---------------------------------------------------------------- no table is lost

  /** Table pt belongs to some directory. */
  ghost predicate Owned(m: Mmu, pt: int) {
    exists pd, i :: PointsTo(m, pd, i, pt)
  }

  ghost predicate AllOwned(m: Mmu) {
    forall pt :: pt in m.tables ==> Owned(m, pt)
  }

  lemma OwnedIfPointed(m: Mmu, r: Mmu)
    requires AllOwned(m) && r.tables.Keys <= m.tables.Keys
    requires forall pd, i, pt :: PointsTo(m, pd, i, pt) && pt in r.tables ==> PointsTo(r, pd, i, pt)
    ensures AllOwned(r)
  {
    forall pt | pt in r.tables ensures Owned(r, pt) {
      assert Owned(m, pt);
      var pd, i :| PointsTo(m, pd, i, pt);
      assert PointsTo(r, pd, i, pt);
    }
  }

  lemma AddTableOwned(m: Mmu, pd: int, v: PageNo, pt: int)
    requires Wf(m) && AllOwned(m) && pd in m.dirs && m.dirs[pd][PdNo(v)] == None && pt !in m.tables
    ensures AllOwned(AddTable(m, pd, v, pt))
  {
    var r := AddTable(m, pd, v, pt);
    assert PointsTo(r, pd, PdNo(v), pt);
    forall t | t in r.tables ensures Owned(r, t) {
      if t != pt {
        assert Owned(m, t);
        var d, i :| PointsTo(m, d, i, t);
        assert PointsTo(r, d, i, t);
      }
    }
  }

  lemma StepKeepsOwned(m: Mmu, op: Op)
    requires Wf(m) && AllOwned(m) && TlbOk(m) && Enabled(m, op)
    ensures AllOwned(Apply(m, op))
  {
    var r := Apply(m, op);
    if op.Set? {
      if m.dirs[op.pd][PdNo(op.v)] == None {
        AddTableMapsNothing(m, op.pd, op.v, op.pt.value);
        AddTableOwned(m, op.pd, op.v, op.pt.value);
        OwnedIfPointed(AddTable(m, op.pd, op.v, op.pt.value), r);
      } else {
        PokeKeepsTables(m, op.pd, op.v);
        OwnedIfPointed(m, r);
      }
    } else {
      if op.DestroyDir? {
        DestroyFrees(m, op.pd);
      } else if op.Clear? || op.Dirty? || op.Accessed? {
        PokeKeepsTables(m, op.pd, op.v);
      } else if op.TlbFill? || op.UserStore? {
        PokeKeepsTables(m, m.cr3, op.v);
      }
      OwnedIfPointed(m, r);
    }
  }

  lemma PokeKeepsTables(m: Mmu, pd: int, v: PageNo)
    requires Wf(m) && pd in m.dirs
    ensures m.dirs[pd][PdNo(v)].Some? ==> forall e :: Poke(m, pd, v, e).tables.Keys == m.tables.Keys
  {
    if m.dirs[pd][PdNo(v)].Some? {
      assert PointsTo(m, pd, PdNo(v), m.dirs[pd][PdNo(v)].value);
    }
  }

  /** pagedir_destroy frees exactly the tables of the directory. */
  lemma DestroyFrees(m: Mmu, pd: int)
    requires Wf(m) && pd in m.dirs
    ensures forall pt :: pt in Destroy(m, pd).tables <==> pt in m.tables && forall i :: !PointsTo(m, pd, i, pt)
  {
    forall pt | pt in m.tables && Some(pt) in m.dirs[pd] ensures exists i :: PointsTo(m, pd, i, pt) {
      var i :| 0 <= i < |m.dirs[pd]| && m.dirs[pd][i] == Some(pt);
      assert PointsTo(m, pd, i, pt);
    }
  }

  /** Over every run each table belongs to a directory that exists: destroying a directory leaves none behind. */
  lemma RunsLoseNoTable(pd: int, n: nat, w: World, pt: int)
    requires Reaches((x, y) => Step(x, y), Boot(pd), n, w) && pt in w.m.tables
    ensures Owned(w.m, pt)
  {
    BootIsGood(pd);
    forall x: World, y: World | Good(x) && AllOwned(x.m) && Step(x, y) ensures Good(y) && AllOwned(y.m) {
      StepKeepsGood(x, y);
      var op: Op :| Enabled(x.m, op) && y == World(Apply(x.m, op), Promised(x.p, Installed(x.m, op), op));
      StepKeepsOwned(x.m, op);
    }
    RunsKeep((x, y) => Step(x, y), (x: World) => Good(x) && AllOwned(x.m), Boot(pd), n, w);
  }

  // ---------------------------------------------------------------- the page-table words

  /** The processor's paging state, updated word by word. */
  class Paging {
    var dirs: map<int, seq<Option<int>>>
    var tables: map<int, seq<Pte>>
    var cr3: int
    var tlb: map<PageNo, TlbEntry>

    ghost function State(): Mmu reads this { Mmu(dirs, tables, cr3, tlb) }

    /** lookup_page: the table that holds the entry for v, created at pt when asked to. */
    method LookupPage(pd: int, v: PageNo, create: bool, pt: Option<int>) returns (table: Option<int>)
      requires Wf(State()) && pd in dirs && (pt.Some? ==> pt.value !in tables)
      modifies this`dirs, this`tables
      ensures table == if old(dirs)[pd][PdNo(v)].Some? then old(dirs)[pd][PdNo(v)] else if create then pt else None
      ensures create && table.Some? ==> WithTable(old(State()), pd, v, pt) == Some(State())
      ensures !create || table.None? ==> State() == old(State())
      ensures Wf(State()) && (table.Some? ==> pd in dirs && dirs[pd][PdNo(v)] == table)
    {
      table := dirs[pd][PdNo(v)];
      if table == None && create {
        if pt == None {
          return;
        }
        ghost var before := State();
        table := pt;
        tables := tables[pt.value := seq(ENTRIES, _ => EMPTY_PTE)];
        dirs := dirs[pd := dirs[pd][PdNo(v) := table]];
        AddTableMapsNothing(before, pd, v, pt.value);
        assert State() == AddTable(before, pd, v, pt.value);
      }
    }

    /** Where table is the one for v, the word at its index is the entry. */
    method Word(pd: int, v: PageNo, table: int) returns (e: Pte)
      requires Wf(State()) && pd in dirs && dirs[pd][PdNo(v)] == Some(table)
      ensures Lookup(State(), pd, v) == Some(e)
    {
      assert PointsTo(State(), pd, PdNo(v), table);
      e := tables[table][PtNo(v)];
    }

    method SetWord(pd: int, v: PageNo, table: int, e: Pte)
      requires Wf(State()) && pd in dirs && dirs[pd][PdNo(v)] == Some(table)
      modifies this`tables
      ensures State() == Poke(old(State()), pd, v, e) && Wf(State())
    {
      assert PointsTo(State(), pd, PdNo(v), table);
      PokeIsLocal(State(), pd, v, e);
      tables := tables[table := tables[table][PtNo(v) := e]];
    }

    /** pagedir_create, given the page it gets. */
    method PagedirCreate(page: Option<int>) returns (pd: Option<int>)
      requires page.Some? ==> page.value !in dirs
      modifies this`dirs
      ensures pd == page && (pd == None ==> State() == old(State()))
      ensures pd.Some? ==> State() == Create(old(State()), pd.value)
      ensures pd.Some? && Wf(old(State())) ==> Wf(State()) && forall v :: Frame(State(), pd.value, v) == None
    {
      pd := page;
      if pd.Some? {
        ghost var m := State();
        dirs := dirs[pd.value := seq(ENTRIES, _ => None)];
        assert State() == Create(m, pd.value);
        assert forall d, i, t :: PointsTo(State(), d, i, t) ==> PointsTo(m, d, i, t);
      }
    }

    /** pagedir_destroy: the loop over the directory frees its tables; the frames they name stay allocated. */
    method PagedirDestroy(pd: int)
      requires Wf(State()) && pd in dirs && pd != cr3
      modifies this`dirs, this`tables
      ensures State() == Destroy(old(State()), pd) && Wf(State())
      ensures pd !in dirs && forall d, v: PageNo :: d in dirs ==> Lookup(State(), d, v) == Lookup(old(State()), d, v)
    {
      ghost var m := State();
      DestroyedLookup(m, pd, Destroy(m, pd));
      var i := 0;
      while i < ENTRIES
        invariant 0 <= i <= ENTRIES && dirs == m.dirs
        invariant tables == map pt | pt in m.tables && Some(pt) !in m.dirs[pd][..i] :: m.tables[pt]
      {
        assert m.dirs[pd][..i + 1] == m.dirs[pd][..i] + [m.dirs[pd][i]];
        if dirs[pd][i].Some? {
          tables := tables - {dirs[pd][i].value};
        }
        i := i + 1;
      }
      assert m.dirs[pd][..ENTRIES] == m.dirs[pd];
      dirs := dirs - {pd};
    }

    method PagedirSetPage(pd: int, v: PageNo, frame: int, writable: bool, pt: Option<int>)
      requires Wf(State()) && pd in dirs && (pt.Some? ==> pt.value !in tables)
      requires Frame(State(), pd, v) == None && (dirs[pd][PdNo(v)] == None ==> pt.Some?)
      modifies this`dirs, this`tables
      ensures SetPage(old(State()), pd, v, frame, writable, pt) == Some(State())
      ensures Wf(State()) && Lookup(State(), pd, v) == Some(Pte(frame, true, writable, false, false))
    {
      SetPageRefines(State(), pd, v, frame, writable, pt);
      var table := LookupPage(pd, v, true, pt);
      SetWord(pd, v, table.value, Pte(frame, true, writable, false, false));
    }

    method PagedirGetPage(pd: int, v: PageNo) returns (frame: Option<int>)
      requires Wf(State()) && pd in dirs
      modifies this`dirs, this`tables
      ensures State() == old(State()) && frame == Frame(State(), pd, v)
    {
      var table := LookupPage(pd, v, false, None);
      frame := None;
      if table.Some? {
        var e := Word(pd, v, table.value);
        if e.present {
          frame := Some(e.frame);
        }
      }
    }

    method InvalidatePagedir(pd: int)
      modifies this`cr3, this`tlb
      ensures State() == Invalidate(old(State()), pd)
      ensures cr3 == old(cr3) && tlb == if cr3 == pd then map[] else old(tlb)
    {
      if cr3 == pd {
        PagedirActivate(pd);
      }
    }

    method PagedirActivate(pd: int)
      modifies this`cr3, this`tlb
      ensures State() == Activate(old(State()), pd)
      ensures cr3 == pd && tlb == map[]
    {
      cr3, tlb := pd, map[];
    }

    method PagedirClearPage(pd: int, v: PageNo)
      requires Wf(State()) && pd in dirs
      modifies this
      ensures State() == ClearPage(old(State()), pd, v)
      ensures Wf(State()) && dirs == old(dirs) && cr3 == old(cr3) && Frame(State(), pd, v) == None
      ensures Frame(old(State()), pd, v).Some? && cr3 == pd ==> tlb == map[]
    {
      ClearPageRefines(State(), pd, v);
      var table := LookupPage(pd, v, false, None);
      if table.Some? {
        var e := Word(pd, v, table.value);
        if e.present {
          SetWord(pd, v, table.value, e.(present := false));
          InvalidatePagedir(pd);
        }
      }
    }

    method PagedirIsDirty(pd: int, v: PageNo) returns (dirty: bool)
      requires Wf(State()) && pd in dirs
      modifies this`dirs, this`tables
      ensures State() == old(State()) && (dirty <==> IsDirty(State(), pd, v))
    {
      var table := LookupPage(pd, v, false, None);
      dirty := false;
      if table.Some? {
        var e := Word(pd, v, table.value);
        dirty := e.dirty;
      }
    }

    method PagedirIsAccessed(pd: int, v: PageNo) returns (accessed: bool)
      requires Wf(State()) && pd in dirs
      modifies this`dirs, this`tables
      ensures State() == old(State()) && (accessed <==> IsAccessed(State(), pd, v))
    {
      var table := LookupPage(pd, v, false, None);
      accessed := false;
      if table.Some? {
        var e := Word(pd, v, table.value);
        accessed := e.accessed;
      }
    }

    method PagedirSetDirty(pd: int, v: PageNo, dirty: bool)
      requires Wf(State()) && pd in dirs
      modifies this
      ensures State() == SetDirty(old(State()), pd, v, dirty)
      ensures Wf(State()) && dirs == old(dirs) && cr3 == old(cr3)
      ensures Lookup(old(State()), pd, v).Some? ==> Lookup(State(), pd, v) == Some(Lookup(old(State()), pd, v).value.(dirty := dirty))
      ensures IsDirty(State(), pd, v) <==> dirty && Lookup(old(State()), pd, v).Some?
      ensures Lookup(old(State()), pd, v).Some? && !dirty && cr3 == pd ==> tlb == map[]
    {
      BitIsSet(State(), pd, v, dirty);
      var table := LookupPage(pd, v, false, None);
      if table.Some? {
        var e := Word(pd, v, table.value);
        SetWord(pd, v, table.value, e.(dirty := dirty));
        if !dirty {
          InvalidatePagedir(pd);
        }
      }
    }

    method PagedirSetAccessed(pd: int, v: PageNo, accessed: bool)
      requires Wf(State()) && pd in dirs
      modifies this
      ensures State() == SetAccessed(old(State()), pd, v, accessed)
      ensures Wf(State()) && dirs == old(dirs) && cr3 == old(cr3)
      ensures Lookup(old(State()), pd, v).Some? ==> Lookup(State(), pd, v) == Some(Lookup(old(State()), pd, v).value.(accessed := accessed))
      ensures IsAccessed(State(), pd, v) <==> accessed && Lookup(old(State()), pd, v).Some?
      ensures Lookup(old(State()), pd, v).Some? && !accessed && cr3 == pd ==> tlb == map[]
    {
      BitIsSet(State(), pd, v, accessed);
      var table := LookupPage(pd, v, false, None);
      if table.Some? {
        var e := Word(pd, v, table.value);
        SetWord(pd, v, table.value, e.(accessed := accessed));
        if !accessed {
          InvalidatePagedir(pd);
        }
      }
    }
  }
}
