/**
 What the block map says past the 188 direct sectors: an index entry is two bytes at byte offset
 ind_ofs, so each append overwrites the high byte of the entry before it in the same index sector.
 */
module IndexSectors {
  import opened Machine
  import opened InodeMap

  function Low(x: uint16): int { x % 256 }

  function High(x: uint16): int { x / 256 }

  /** The entry that next's low byte has been written over. */
  function Clobbered(x: uint16, next: uint16): uint16 { Low(x) + 256 * Low(next) }

  /** append_sector's effect on every entry: the new one reads back, the one before it in its index sector is clobbered. */
  lemma AppendedEntries(g: Growth, a: Append, b: nat)
    requires CanAppend(g, a) && IndexOk(g) && b <= Blocks(g.d)
    ensures
      var r, n := Appended(g, a), Blocks(g.d);
      Entry(r.d, r.vol.view, b) ==
        if b == n then a.data
        else if b == n - 1 && b >= NUM_DIRECT && GroupOffset(n) != 0 then Clobbered(Entry(g.d, g.vol.view, b), a.data)
        else Entry(g.d, g.vol.view, b)
  {
    var r, n := Appended(g, a), Blocks(g.d);
    NeedsIndexIff(g.d);
    AppendedIndexOk(g, a);
    if n >= NUM_DIRECT {
      Le16RoundTrip(a.data);
      var w := WithIndex(g, a);
      var x := w.d.indirect[Group(n)];
      var o := GroupOffset(n);
      assert r.vol.view[x][o..o + 2] == Le16(a.data);
      if NUM_DIRECT <= b < n {
        var y := g.d.indirect[Group(b)];
        assert w.d.indirect[Group(b)] == y && g.vol.used[y];
        if Group(b) == Group(n) {
          assert GroupOffset(b) + (n - b) == o;
          assert r.vol.view[y] == Splice(g.vol.view[y], o, Le16(a.data));
        } else {
          assert r.vol.view[y] == g.vol.view[y];
        }
      }
    }
  }

  /** The same for a block that was there before, in terms of its own place in its index sector. */
  lemma EntryAfter(g: Growth, a: Append, r: Growth, b: nat)
    requires CanAppend(g, a) && IndexOk(g) && NUM_DIRECT <= b < Blocks(g.d) && r == Appended(g, a)
    ensures IndexOk(r) && Blocks(r.d) == Blocks(g.d) + 1
    ensures
      Entry(r.d, r.vol.view, b) ==
        if b == Blocks(g.d) - 1 && GroupOffset(b) != INDIRECT_LEN - 1 then Clobbered(Entry(g.d, g.vol.view, b), a.data)
        else Entry(g.d, g.vol.view, b)
  {
    AppendedEntries(g, a, b);
    AppendedIndexOk(g, a);
  }

  lemma EntryNow(g: Growth, a: Append, r: Growth)
    requires CanAppend(g, a) && IndexOk(g) && r == Appended(g, a)
    ensures IndexOk(r) && Blocks(r.d) == Blocks(g.d) + 1
    ensures Entry(r.d, r.vol.view, Blocks(g.d)) == a.data
  {
    AppendedEntries(g, a, Blocks(g.d));
    AppendedIndexOk(g, a);
  }

  /** What an appended block's entry reads once the whole log is done. */
  function FinalEntry(log: seq<Append>, i: nat, b: int): uint16
    requires i < |log|
  {
    if i == |log| - 1 || GroupOffset(b) == INDIRECT_LEN - 1 then log[i].data
    else Clobbered(log[i].data, log[i + 1].data)
  }

  lemma FinalEntryStep(log: seq<Append>, i: nat, b: int)
    requires i < |log| - 1
    ensures
      var before := FinalEntry(log[..|log| - 1], i, b);
      FinalEntry(log, i, b) ==
        if i == |log| - 2 && GroupOffset(b) != INDIRECT_LEN - 1 then Clobbered(before, log[|log| - 1].data) else before
  {
  }

  /** Block b of the grown inode reads as sector x. */
  ghost predicate Reads(r: Growth, b: nat, x: uint16) {
    IndexOk(r) && b < Blocks(r.d) && Entry(r.d, r.vol.view, b) == x
  }

  lemma ReadsStep(e: Growth, last: Append, r: Growth, b: nat, x: uint16, y: uint16)
    requires CanAppend(e, last) && b >= NUM_DIRECT && Reads(e, b, x) && r == Appended(e, last)
    requires y == if b == Blocks(e.d) - 1 && GroupOffset(b) != INDIRECT_LEN - 1 then Clobbered(x, last.data) else x
    ensures Reads(r, b, y)
  {
    EntryAfter(e, last, r, b);
  }

  lemma ReadsNow(e: Growth, last: Append, r: Growth, b: nat)
    requires CanAppend(e, last) && IndexOk(e) && b == Blocks(e.d) && r == Appended(e, last)
    ensures Reads(r, b, last.data)
  {
    EntryNow(e, last, r);
  }

  /** The entry an appended block ends up with: its sector, unless a later append went into the same index sector. */
  lemma {:induction false} GrownEntry(g: Growth, log: seq<Append>, i: nat, b: nat)
    requires CanAppendAll(g, log) && IndexOk(g) && i < |log| && Blocks(g.d) + i == b >= NUM_DIRECT
    ensures Reads(AppendedAll(g, log), b, FinalEntry(log, i, b))
    decreases |log|
  {
    var init, last := log[..|log| - 1], log[|log| - 1];
    GrownIndexOk(g, init);
    var e, r := AppendedAll(g, init), AppendedAll(g, log);
    if i < |log| - 1 {
      GrownEntry(g, init, i, b);
      FinalEntryStep(log, i, b);
      ReadsStep(e, last, r, b, FinalEntry(init, i, b), FinalEntry(log, i, b));
    } else {
      ReadsNow(e, last, r, b);
    }
  }

  lemma ClobberedIff(x: uint16, next: uint16)
    ensures Clobbered(x, next) == x <==> High(x) == Low(next)
  {
  }

  /**
   An indexed block reads back as the sector that was allocated for it exactly when it is the last
   block of the file, or the last of its index sector, or its high byte happens to be the low byte
   of the next block's sector.
   */
  lemma IndexReadBackIff(g: Growth, log: seq<Append>, i: nat, b: nat)
    requires CanAppendAll(g, log) && IndexOk(g) && i < |log| && Blocks(g.d) + i == b >= NUM_DIRECT
    ensures Reads(AppendedAll(g, log), b, log[i].data) <==>
            i == |log| - 1 || GroupOffset(b) == INDIRECT_LEN - 1 || High(log[i].data) == Low(log[i + 1].data)
  {
    GrownEntry(g, log, i, b);
    var x := FinalEntry(log, i, b);
    assert Reads(AppendedAll(g, log), b, log[i].data) <==> log[i].data == x;
    if i < |log| - 1 {
      ClobberedIff(log[i].data, log[i + 1].data);
    }
  }

  /** The entry an old block ends up with: growth overwrites part of the last one if it shares an index sector with the next. */
  function KeptEntry(g: Growth, log: seq<Append>, b: nat): uint16
    requires IndexOk(g) && b < Blocks(g.d)
  {
    var x := Entry(g.d, g.vol.view, b);
    if log != [] && b == Blocks(g.d) - 1 >= NUM_DIRECT && GroupOffset(Blocks(g.d)) != 0 then Clobbered(x, log[0].data) else x
  }

  lemma {:induction false} GrownOldEntry(g: Growth, log: seq<Append>, b: nat)
    requires CanAppendAll(g, log) && IndexOk(g) && b < Blocks(g.d)
    ensures Reads(AppendedAll(g, log), b, KeptEntry(g, log, b))
    decreases |log|
  {
    if log != [] {
      var init, last := log[..|log| - 1], log[|log| - 1];
      GrownOldEntry(g, init, b);
      GrownIndexOk(g, log);
      AppendedEntries(AppendedAll(g, init), last, b);
    }
  }

  ghost predicate MapKept(g: Growth, log: seq<Append>)
    requires CanAppendAll(g, log) && IndexOk(g)
  {
    forall b: nat :: b < Blocks(g.d) ==> Reads(AppendedAll(g, log), b, Entry(g.d, g.vol.view, b))
  }

  lemma ReadsOldIff(g: Growth, log: seq<Append>, b: nat)
    requires CanAppendAll(g, log) && IndexOk(g) && b < Blocks(g.d)
    ensures Reads(AppendedAll(g, log), b, Entry(g.d, g.vol.view, b)) <==> KeptEntry(g, log, b) == Entry(g.d, g.vol.view, b)
  {
    GrownOldEntry(g, log, b);
  }

  /** Growing a file keeps the sector of every block it had exactly when no entry of its last index sector is overwritten. */
  lemma GrowKeepsMapIff(g: Growth, log: seq<Append>)
    requires CanAppendAll(g, log) && IndexOk(g)
    ensures MapKept(g, log) <==>
            || log == [] || Blocks(g.d) <= NUM_DIRECT || GroupOffset(Blocks(g.d)) == 0
            || High(Entry(g.d, g.vol.view, Blocks(g.d) - 1)) == Low(log[0].data)
  {
    hide Reads, Entry, AppendedAll, CanAppendAll;
    forall b: nat | b < Blocks(g.d)
      ensures Reads(AppendedAll(g, log), b, Entry(g.d, g.vol.view, b)) <==> KeptEntry(g, log, b) == Entry(g.d, g.vol.view, b)
    {
      ReadsOldIff(g, log, b);
    }
    if log != [] && Blocks(g.d) > NUM_DIRECT {
      ClobberedIff(Entry(g.d, g.vol.view, Blocks(g.d) - 1), log[0].data);
    }
  }

  /** A file of 188 sectors on a volume whose only unused sectors are 300 and 301. */
  ghost function FullDirect(): Growth {
    Growth(
      InodeData(DIRECT_BYTES, seq(NUM_DIRECT, b requires 0 <= b < NUM_DIRECT => 2 + b), seq(NUM_INDIRECT, _ => 0)),
      Volume(seq(302, s => s < 300), seq(302, _ => ZeroSector())))
  }

  /** Two more sectors, and block 188 no longer names sector 300, which was allocated for it, but sector 11564. */
  lemma IndexReadBackFails()
    ensures
      var log := [Append(None, 300), Append(None, 301)];
      && CanAppendAll(FullDirect(), log)
      && IndexOk(FullDirect())
      && var r := AppendedAll(FullDirect(), log);
         Blocks(r.d) == 190 && Reads(r, 188, 11564)
  {
    var g := FullDirect();
    var a, c := Append(None, 300), Append(None, 301);
    assert IndexOk(g);
    NeedsIndexIff(g.d);
    assert CanAppend(g, a);
    assert CanAppendAll(g, []) && AppendedAll(g, []) == g;
    assert [a][..0] == [];
    assert CanAppendAll(g, [a]) && AppendedAll(g, [a]) == Appended(g, a);
    var h := Appended(g, a);
    NeedsIndexIff(h.d);
    assert CanAppend(h, c);
    assert [a, c][..1] == [a];
    assert CanAppendAll(g, [a, c]);
    GrownEntry(g, [a, c], 0, 188);
  }
}
