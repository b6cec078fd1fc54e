/**
 Files past their 188 direct sectors: when growing one keeps its block map true, and what a write then
 means for its bytes. Neighbouring index entries share a byte, so that takes luck with the numbers of
 the sectors the free map hands out.
 */
module IndexedFiles {
  import opened Machine
  import opened FreeSectors
  import opened InodeMap
  import opened IndexSectors
  import opened FileContent

  /** Storing sector s as the entry of block b leaves the entry before it, which names sector prev, readable. */
  predicate Fits(prev: uint16, b: int, s: uint16) {
    b <= NUM_DIRECT || GroupOffset(b) == 0 || High(prev) == Low(s)
  }

  /** The appends of log, each after the one before and the first after the last block of g, fit. */
  ghost predicate Tame(g: Growth, log: seq<Append>)
    requires IndexOk(g)
  {
    forall i :: 0 <= i < |log| ==> FitsAt(g, log, i)
  }

  ghost predicate FitsAt(g: Growth, log: seq<Append>, i: nat)
    requires IndexOk(g) && i < |log|
  {
    var n := Blocks(g.d);
    n + i <= NUM_DIRECT
    || Fits(if i > 0 then log[i - 1].data else Entry(g.d, g.vol.view, n - 1), n + i, log[i].data)
  }

  /** Every appended block reads back as the sector allocated for it. */
  ghost predicate NewReadBack(g: Growth, log: seq<Append>)
    requires CanAppendAll(g, log) && IndexOk(g)
  {
    forall i :: 0 <= i < |log| && Blocks(g.d) + i >= NUM_DIRECT ==>
      Reads(AppendedAll(g, log), Blocks(g.d) + i, log[i].data)
  }

  /** One appended block, by the fit of the next. */
  lemma ReadBackAt(g: Growth, log: seq<Append>, i: nat)
    requires CanAppendAll(g, log) && IndexOk(g) && i < |log| && Blocks(g.d) + i >= NUM_DIRECT
    ensures Reads(AppendedAll(g, log), Blocks(g.d) + i, log[i].data) <==> i == |log| - 1 || FitsAt(g, log, i + 1)
  {
    hide Reads, AppendedAll, CanAppendAll, Entry, GroupOffset, High, Low;
    IndexReadBackIff(g, log, i, Blocks(g.d) + i);
    NextOffset(Blocks(g.d) + i);
  }

  lemma KeptFirst(g: Growth, log: seq<Append>)
    requires CanAppendAll(g, log) && IndexOk(g)
    ensures MapKept(g, log) <==> log == [] || FitsAt(g, log, 0)
  {
    hide Reads, AppendedAll, CanAppendAll, MapKept, Entry, GroupOffset, High, Low;
    GrowKeepsMapIff(g, log);
  }

  /**
   Growing a file leaves its block map true, the old blocks where they were and the new ones where they
   were allocated, exactly if each sector from block 189 on has a low byte equal to the high byte of the
   one before it, except where a new index sector starts.
   */
  lemma MapTrueIff(g: Growth, log: seq<Append>)
    requires CanAppendAll(g, log) && IndexOk(g)
    ensures MapKept(g, log) && NewReadBack(g, log) <==> Tame(g, log)
  {
    hide Reads, AppendedAll, CanAppendAll, MapKept, Entry, Fits;
    KeptFirst(g, log);
    var n := Blocks(g.d);
    if Tame(g, log) {
      assert log != [] ==> FitsAt(g, log, 0);
      forall i | 0 <= i < |log| && n + i >= NUM_DIRECT ensures Reads(AppendedAll(g, log), n + i, log[i].data) {
        ReadBackAt(g, log, i);
        assert i + 1 < |log| ==> FitsAt(g, log, i + 1);
      }
    }
    if MapKept(g, log) && NewReadBack(g, log) {
      forall i | 0 <= i < |log| ensures FitsAt(g, log, i) {
        if i > 0 && n + i > NUM_DIRECT {
          ReadBackAt(g, log, i - 1);
          assert Reads(AppendedAll(g, log), n + (i - 1), log[i - 1].data);
        }
      }
    }
  }

  lemma NextOffset(b: nat)
    requires b >= NUM_DIRECT
    ensures GroupOffset(b + 1) == 0 <==> GroupOffset(b) == INDIRECT_LEN - 1
  {
  }

  /** Of three consecutively numbered sectors put into one index sector, the first two stay readable only if they are 255 and 256. */
  lemma ThreeInARowIff(s: nat, b: nat)
    requires s + 2 <= UINT16_MAX && b > NUM_DIRECT && GroupOffset(b) != 0 && GroupOffset(b + 1) != 0
    ensures Fits(s, b, s + 1) && Fits(s + 1, b + 1, s + 2) <==> s == 255
  {
    assert High(s) == s / 256 && Low(s + 1) == (s + 1) % 256;
    if s % 256 == 255 {
      assert (s + 1) % 256 == 0;
    } else {
      assert (s + 1) / 256 == s / 256 && (s + 1) % 256 == s % 256 + 1;
    }
  }

  // ---------------------------------------------------------------- growth of a file that is true to its map

  /** Sector s is an index sector that the block map is read from. */
  ghost predicate IndexSector(d: InodeData, s: int)
    requires WfInode(d) && Blocks(d) < NUM_DIRECT + NUM_INDIRECT * INDIRECT_LEN
  {
    exists c :: NUM_DIRECT <= c < Blocks(d) && d.indirect[Group(c)] == s
  }

  /** A file that can be written: its own blocks, none of them sector 0, which every file's first index group shares. */
  ghost predicate Sound(g: Growth) {
    IndexOk(g) && Mapped(g.d, g.vol) && !OwnsSector(g.d, g.vol.view, FREE_MAP_SECTOR)
  }

  /** r is g grown: old blocks in place with their bytes, new blocks zero and taken from unused sectors. */
  ghost predicate GrownTo(g: Growth, r: Growth) {
    && Sound(g) && Sound(r) && Blocks(g.d) <= Blocks(r.d) && |r.vol.used| == |g.vol.used|
    && (forall b :: 0 <= b < Blocks(g.d) ==>
          && Entry(r.d, r.vol.view, b) == Entry(g.d, g.vol.view, b)
          && r.vol.view[Entry(r.d, r.vol.view, b)] == g.vol.view[Entry(g.d, g.vol.view, b)])
    && (forall b :: Blocks(g.d) <= b < Blocks(r.d) ==>
          && r.vol.view[Entry(r.d, r.vol.view, b)] == ZeroSector()
          && !g.vol.used[Entry(r.d, r.vol.view, b)])
    && (forall s :: 0 <= s < |g.vol.used| && g.vol.used[s] ==>
          r.vol.used[s] && (IndexSector(r.d, s) || r.vol.view[s] == g.vol.view[s]))
  }

  /** The entries after an append that fits. */
  lemma FitEntries(e: Growth, a: Append, r: Growth, b: nat)
    requires IndexOk(e) && CanAppend(e, a) && r == Appended(e, a) && b <= Blocks(e.d)
    requires Blocks(e.d) <= NUM_DIRECT || Fits(Entry(e.d, e.vol.view, Blocks(e.d) - 1), Blocks(e.d), a.data)
    ensures IndexOk(r) && Blocks(r.d) == Blocks(e.d) + 1
    ensures Entry(r.d, r.vol.view, b) == if b == Blocks(e.d) then a.data else Entry(e.d, e.vol.view, b)
  {
    AppendedEntries(e, a, b);
    AppendedIndexOk(e, a);
    if b < Blocks(e.d) {
      ClobberedIff(Entry(e.d, e.vol.view, b), a.data);
    }
  }

  /** An append writes its two new sectors and its block's index sector, and nothing else. */
  lemma AppendWrites(e: Growth, a: Append, r: Growth, s: nat)
    requires IndexOk(e) && CanAppend(e, a) && r == Appended(e, a)
    requires s < |e.vol.view| && e.vol.used[s]
    ensures r.vol.used[s] && (IndexSector(r.d, s) || r.vol.view[s] == e.vol.view[s])
  {
    var n := Blocks(e.d);
    AppendedUsed(e, a);
    if n >= NUM_DIRECT {
      assert r.d.indirect[Group(n)] == s ==> IndexSector(r.d, s);
    }
  }

  /** The append fits after the blocks the file has. */
  ghost predicate FitsNext(e: Growth, a: Append)
    requires IndexOk(e)
  {
    Blocks(e.d) <= NUM_DIRECT || Fits(Entry(e.d, e.vol.view, Blocks(e.d) - 1), Blocks(e.d), a.data)
  }

  /** The entries of r are those of e and, for the new block, a's data sector. */
  ghost predicate EntriesNext(e: Growth, a: Append, r: Growth) {
    && IndexOk(e) && IndexOk(r) && Blocks(r.d) == Blocks(e.d) + 1
    && forall b :: 0 <= b <= Blocks(e.d) ==>
         Entry(r.d, r.vol.view, b) == if b == Blocks(e.d) then a.data else Entry(e.d, e.vol.view, b)
  }

  lemma AppendEntries(e: Growth, a: Append, r: Growth)
    requires IndexOk(e) && CanAppend(e, a) && r == Appended(e, a) && FitsNext(e, a)
    ensures EntriesNext(e, a, r)
  {
    AppendedIndexOk(e, a);
    forall b | 0 <= b <= Blocks(e.d)
      ensures Entry(r.d, r.vol.view, b) == if b == Blocks(e.d) then a.data else Entry(e.d, e.vol.view, b)
    {
      FitEntries(e, a, r, b);
    }
  }

  /** The new sectors are unused ones, so none of them is a block or an index sector the file had. */
  lemma AppendSound(e: Growth, a: Append, r: Growth)
    requires Sound(e) && CanAppend(e, a) && r == Appended(e, a) && FitsNext(e, a)
    ensures Sound(r)
  {
    hide Appended, WithIndex, Fresh, CanAppend, Entry;
    AppendEntries(e, a, r);
    AppendedUsed(e, a);
    assert TakenBy(a, a.data);
    forall b, c | 0 <= b < Blocks(r.d) && NUM_DIRECT <= c < Blocks(r.d)
      ensures Entry(r.d, r.vol.view, b) != r.d.indirect[Group(c)]
    {
      IndexSectorKnown(e, a, r, c);
    }
  }

  /** The index sector of a block after an append is one used before, and not the sector of a block, or the newly taken one. */
  lemma IndexSectorKnown(e: Growth, a: Append, r: Growth, c: nat)
    requires Sound(e) && CanAppend(e, a) && r == Appended(e, a) && NUM_DIRECT <= c <= Blocks(e.d)
    ensures
      var x := r.d.indirect[Group(c)];
      || (a.index == Some(x) && !e.vol.used[x] && x != a.data)
      || (e.vol.used[x] && !OwnsSector(e.d, e.vol.view, x))
  {
    var n := Blocks(e.d);
    NeedsIndexIff(e.d);
    AppendedIndexOk(e, a);
    AppendedUsed(e, a);
    assert TakenBy(a, a.data) && (a.index.Some? ==> TakenBy(a, a.index.value));
    if c < n {
      assert r.d.indirect[Group(c)] == e.d.indirect[Group(c)];
    } else if n > NUM_DIRECT && !NeedsIndex(e.d) {
      assert Group(n) == Group(n - 1);
    }
  }

  lemma AppendGrows(e: Growth, a: Append, r: Growth)
    requires Sound(e) && CanAppend(e, a) && r == Appended(e, a) && FitsNext(e, a)
    ensures GrownTo(e, r)
  {
    AppendSound(e, a, r);
    AppendEntries(e, a, r);
    NewBlockZero(e, a, r);
    forall s | 0 <= s < |e.vol.used| && e.vol.used[s]
      ensures r.vol.used[s] && (IndexSector(r.d, s) || r.vol.view[s] == e.vol.view[s])
    {
      AppendWrites(e, a, r, s);
    }
    forall b | 0 <= b < Blocks(e.d)
      ensures r.vol.view[Entry(e.d, e.vol.view, b)] == e.vol.view[Entry(e.d, e.vol.view, b)]
    {
      BlockKept(e, a, r, b);
    }
    IndexInRange(e);
    IndexInRange(r);
    hide Appended, CanAppend, Entry, IndexOk, OwnsSector, FitsNext, Mapped, IndexSector;
    AppendedGrown(e, a, r);
  }

  lemma AppendedGrown(e: Growth, a: Append, r: Growth)
    requires Sound(e) && Sound(r) && EntriesNext(e, a, r) && |r.vol.used| == |e.vol.used|
    requires a.data < |e.vol.used| && !e.vol.used[a.data] && r.vol.view[a.data] == ZeroSector()
    requires forall s :: 0 <= s < |e.vol.used| && e.vol.used[s] ==>
               r.vol.used[s] && (IndexSector(r.d, s) || r.vol.view[s] == e.vol.view[s])
    requires forall b :: 0 <= b < Blocks(e.d) ==>
               r.vol.view[Entry(e.d, e.vol.view, b)] == e.vol.view[Entry(e.d, e.vol.view, b)]
    ensures GrownTo(e, r)
  {
    IndexInRange(e);
    IndexInRange(r);
    hide Entry, IndexOk, OwnsSector, IndexSector;
  }

  lemma NewBlockZero(e: Growth, a: Append, r: Growth)
    requires Sound(e) && CanAppend(e, a) && r == Appended(e, a)
    ensures a.data < |e.vol.used| && !e.vol.used[a.data] && r.vol.view[a.data] == ZeroSector()
    ensures |r.vol.used| == |e.vol.used|
  {
    AppendedUsed(e, a);
    assert TakenBy(a, a.data);
    if Blocks(e.d) >= NUM_DIRECT {
      IndexSectorKnown(e, a, r, Blocks(e.d));
    }
  }

  lemma BlockKept(e: Growth, a: Append, r: Growth, b: nat)
    requires Sound(e) && CanAppend(e, a) && r == Appended(e, a) && b < Blocks(e.d)
    ensures r.vol.view[Entry(e.d, e.vol.view, b)] == e.vol.view[Entry(e.d, e.vol.view, b)]
  {
    var s := Entry(e.d, e.vol.view, b);
    AppendWrites(e, a, r, s);
    if IndexSector(r.d, s) {
      var c :| NUM_DIRECT <= c < Blocks(r.d) && r.d.indirect[Group(c)] == s;
      IndexSectorKnown(e, a, r, c);
    }
  }

  lemma GrownToTrans(g: Growth, e: Growth, r: Growth)
    requires GrownTo(g, e) && GrownTo(e, r)
    requires forall c :: NUM_DIRECT <= c < Blocks(e.d) ==> r.d.indirect[Group(c)] == e.d.indirect[Group(c)]
    ensures GrownTo(g, r)
  {
    forall s | 0 <= s < |g.vol.used| && g.vol.used[s]
      ensures r.vol.used[s] && (IndexSector(r.d, s) || r.vol.view[s] == g.vol.view[s])
    {
      if IndexSector(e.d, s) {
        var c :| NUM_DIRECT <= c < Blocks(e.d) && e.d.indirect[Group(c)] == s;
        assert IndexSector(r.d, s);
      }
    }
    forall b | Blocks(g.d) <= b < Blocks(r.d)
      ensures r.vol.view[Entry(r.d, r.vol.view, b)] == ZeroSector() && !g.vol.used[Entry(r.d, r.vol.view, b)]
    {
      if b < Blocks(e.d) {
        assert Entry(r.d, r.vol.view, b) == Entry(e.d, e.vol.view, b);
      }
    }
  }

  /** The new blocks are the sectors of the log, in order. */
  ghost predicate NewAre(g: Growth, r: Growth, log: seq<Append>) {
    && IndexOk(g) && IndexOk(r) && Blocks(r.d) == Blocks(g.d) + |log|
    && forall b :: Blocks(g.d) <= b < Blocks(r.d) ==> Entry(r.d, r.vol.view, b) == log[b - Blocks(g.d)].data
  }

  lemma NewAreNext(g: Growth, e: Growth, init: seq<Append>, a: Append, r: Growth)
    requires NewAre(g, e, init) && GrownTo(g, e) && CanAppend(e, a) && r == Appended(e, a) && FitsNext(e, a)
    ensures NewAre(g, r, init + [a])
  {
    hide GrownTo, Appended, CanAppend;
    AppendedIndexOk(e, a);
    forall b | Blocks(g.d) <= b <= Blocks(e.d)
      ensures Entry(r.d, r.vol.view, b) == (init + [a])[b - Blocks(g.d)].data
    {
      FitEntries(e, a, r, b);
    }
    FitEntries(e, a, r, Blocks(e.d));
  }

  lemma TameNext(g: Growth, e: Growth, init: seq<Append>, a: Append)
    requires NewAre(g, e, init) && FitsAt(g, init + [a], |init|)
    requires forall b :: 0 <= b < Blocks(g.d) ==> Entry(e.d, e.vol.view, b) == Entry(g.d, g.vol.view, b)
    ensures FitsNext(e, a)
  {
    hide Entry;
    if init != [] {
      assert Entry(e.d, e.vol.view, Blocks(e.d) - 1) == init[|init| - 1].data;
    }
  }

  lemma TamePrefix(g: Growth, init: seq<Append>, last: Append)
    requires IndexOk(g) && Tame(g, init + [last])
    ensures Tame(g, init) && FitsAt(g, init + [last], |init|)
  {
    forall i | 0 <= i < |init| ensures FitsAt(g, init, i) {
      assert FitsAt(g, init + [last], i);
    }
  }

  /** A tame growth of any length adds zero blocks of the file's own and keeps everything it had. */
  lemma {:induction false} TameGrows(g: Growth, log: seq<Append>)
    requires Sound(g) && CanAppendAll(g, log) && Tame(g, log)
    ensures GrownTo(g, AppendedAll(g, log)) && NewAre(g, AppendedAll(g, log), log)
    decreases |log|
  {
    if log == [] {
      NothingGrows(g);
    } else {
      hide GrownTo, NewAre, Tame, Appended, CanAppend, Mapped, IndexOk;
      var init, last := log[..|log| - 1], log[|log| - 1];
      assert log == init + [last];
      TamePrefix(g, init, last);
      TameGrows(g, init);
      TameAppend(g, AppendedAll(g, init), init, last, AppendedAll(g, log));
    }
  }

  lemma TameAppend(g: Growth, e: Growth, init: seq<Append>, last: Append, r: Growth)
    requires IndexOk(g) && GrownTo(g, e) && NewAre(g, e, init) && FitsAt(g, init + [last], |init|)
    requires CanAppend(e, last) && r == Appended(e, last)
    ensures GrownTo(g, r) && NewAre(g, r, init + [last])
  {
    hide GrownTo, NewAre, FitsAt, FitsNext, Appended, CanAppend, Mapped, IndexOk;
    SoundOf(g, e);
    TameNext(g, e, init, last);
    AppendGrows(e, last, r);
    AppendedIndexOk(e, last);
    IndexKeptBelow(e, last, r);
    GrownToTrans(g, e, r);
    NewAreNext(g, e, init, last, r);
  }

  lemma NothingGrows(g: Growth)
    requires Sound(g)
    ensures GrownTo(g, g) && NewAre(g, g, [])
  {
  }

  lemma SoundOf(g: Growth, e: Growth)
    requires GrownTo(g, e)
    ensures Sound(g) && IndexOk(g) && Sound(e) && IndexOk(e) && Blocks(g.d) <= Blocks(e.d)
    ensures forall b :: 0 <= b < Blocks(g.d) ==> Entry(e.d, e.vol.view, b) == Entry(g.d, g.vol.view, b)
  {
  }

  lemma IndexKeptBelow(e: Growth, a: Append, r: Growth)
    requires CanAppend(e, a) && IndexOk(e) && r == Appended(e, a)
    ensures forall c :: NUM_DIRECT <= c < Blocks(e.d) ==> r.d.indirect[Group(c)] == e.d.indirect[Group(c)]
  {
    AppendedIndexOk(e, a);
  }

  // ---------------------------------------------------------------- extend_disk and inode_write_at

  /** The same block map, read from the same index sectors. */
  ghost predicate SameMap(e: Growth, r: Growth) {
    && IndexOk(e) && IndexOk(r) && Blocks(r.d) == Blocks(e.d) && r.vol.used == e.vol.used
    && (forall b :: 0 <= b < Blocks(e.d) ==> Entry(r.d, r.vol.view, b) == Entry(e.d, e.vol.view, b))
    && (forall c :: NUM_DIRECT <= c < Blocks(e.d) ==> r.d.indirect[Group(c)] == e.d.indirect[Group(c)])
  }

  lemma SameMapSound(e: Growth, r: Growth)
    requires SameMap(e, r) && Sound(e)
    ensures Sound(r)
  {
    IndexInRange(r);
    IndexInRange(e);
    hide Entry, IndexOk;
    assert forall b :: 0 <= b < Blocks(r.d) ==> Entry(r.d, r.vol.view, b) == Entry(e.d, e.vol.view, b);
  }

  lemma IndexInRange(g: Growth)
    requires IndexOk(g)
    ensures forall b :: NUM_DIRECT <= b < Blocks(g.d) ==> g.d.indirect[Group(b)] < |g.vol.view|
    ensures WfGrowth(g)
  {
  }

  /** Changes off the marked sectors do not undo growth. */
  lemma SameMapGrown(g: Growth, e: Growth, r: Growth)
    requires GrownTo(g, e) && SameMap(e, r)
    requires forall s :: 0 <= s < |e.vol.used| && e.vol.used[s] ==> r.vol.view[s] == e.vol.view[s]
    ensures GrownTo(g, r)
  {
    hide Entry, IndexOk;
    SameMapSound(e, r);
    forall s | IndexSector(e.d, s) ensures IndexSector(r.d, s) {
      var c :| NUM_DIRECT <= c < Blocks(e.d) && e.d.indirect[Group(c)] == s;
      assert r.d.indirect[Group(c)] == s;
    }
    assert forall b :: 0 <= b < Blocks(r.d) ==> Entry(r.d, r.vol.view, b) == Entry(e.d, e.vol.view, b);
  }

  lemma RoundedSame(g: Growth)
    requires IndexOk(g)
    ensures SameMap(g, Rounded(g)) && SameMap(Rounded(g), g)
  {
  }

  lemma RoundedTame(g: Growth, log: seq<Append>)
    requires IndexOk(g) && IndexOk(Rounded(g)) && Tame(g, log)
    ensures Tame(Rounded(g), log)
  {
    forall i | 0 <= i < |log| ensures FitsAt(Rounded(g), log, i) {
      assert FitsAt(g, log, i);
    }
  }

  lemma GrownFromRounded(g: Growth, r: Growth)
    requires Sound(g) && GrownTo(Rounded(g), r)
    ensures GrownTo(g, r)
  {
    hide IndexOk, Mapped;
    RoundedSame(g);
  }

  /** A failed append zeroes at most an unused sector. */
  lemma FailedSame(e: Growth, r: Growth)
    requires IndexOk(e) && AppendFailed(e, r)
    ensures SameMap(e, r)
    ensures forall s :: 0 <= s < |e.vol.used| && e.vol.used[s] ==> r.vol.view[s] == e.vol.view[s]
  {
    if r != e {
      NeedsIndexIff(e.d);
      var x: uint16 :| Fresh(e.vol, x) && r == FailedWith(e, x);
      forall b | 0 <= b < Blocks(e.d) ensures Entry(r.d, r.vol.view, b) == Entry(e.d, e.vol.view, b) {
        FailedKeepsMap(e, r, b);
      }
    }
  }

  lemma CutSame(e: Growth, r: Growth)
    requires IndexOk(e) && r == e.(d := e.d.(length := r.d.length)) && WfInode(r.d) && Blocks(r.d) == Blocks(e.d)
    ensures SameMap(e, r)
  {
  }

  /** extend_disk, as far as it got, keeps every byte and adds zeros if the appends were tame. */
  lemma ExtendedGrows(g: Growth, mid: Growth, length: int, log: seq<Append>)
    requires Sound(g) && Extended(g, mid, length, log) && Tame(g, log)
    ensures GrownTo(g, mid) && NewAre(g, mid, log)
  {
    hide GrownTo, Tame, Mapped, IndexOk, AppendFailed, SameMap;
    ExtendedLength(g, mid, length, log);
    if g.d.length >= length {
      NothingGrows(g);
    } else {
      RoundedSame(g);
      SameMapSound(g, Rounded(g));
      RoundedTame(g, log);
      TameGrows(Rounded(g), log);
      var e := AppendedAll(Rounded(g), log);
      GrownFromRounded(g, e);
      GrownIsSound(g, e);
      if e.d.length >= length {
        CutSame(e, mid);
      } else {
        FailedSame(e, mid);
      }
      SameMapGrown(g, e, mid);
      NewAreSame(g, e, mid, log);
    }
  }

  lemma NewAreSame(g: Growth, e: Growth, r: Growth, log: seq<Append>)
    requires IndexOk(g) && NewAre(Rounded(g), e, log) && SameMap(e, r)
    ensures NewAre(g, r, log)
  {
  }

  /**
   Whatever sectors the free map hands out to grow the file to this length, in the order of their
   numbers, the growth is tame.
   */
  ghost predicate StaysTrue(g: Growth, length: int)
    requires IndexOk(g)
  {
    forall log: seq<Append> :: CanAppendAll(Rounded(g), log) && (Blocks(g.d) + |log| - 1) * SECTOR_SIZE < length ==> Tame(g, log)
  }

  /** Up to 189 sectors, the direct ones and one more, there is nothing to it. */
  lemma DirectStaysTrue(g: Growth, length: int)
    requires IndexOk(g) && length <= DIRECT_BYTES + SECTOR_SIZE
    ensures StaysTrue(g, length)
  {
  }

  /** The sectors growth takes are determined by the free map, as long as nobody else allocates meanwhile. */
  lemma {:induction false} LogIsDetermined(g: Growth, a: seq<Append>, b: seq<Append>)
    requires CanAppendAll(g, a) && CanAppendAll(g, b) && |a| <= |b|
    ensures b[..|a|] == a
    decreases |a| + |b|
  {
    if |a| < |b| {
      LogIsDetermined(g, a, b[..|b| - 1]);
      assert b[..|b| - 1][..|a|] == b[..|a|];
    } else if a != [] {
      var n := |a| - 1;
      LogIsDetermined(g, a[..n], b[..n]);
      assert b[..n][..n] == b[..n];
      AppendIsDetermined(AppendedAll(g, a[..n]), a[n], b[n]);
      assert a == a[..n] + [a[n]] && b == b[..n] + [b[n]];
    }
  }

  lemma AppendIsDetermined(e: Growth, a: Append, b: Append)
    requires CanAppend(e, a) && CanAppend(e, b)
    ensures a == b
  {
    if NeedsIndex(e.d) {
      FirstFreeIsOne(e.vol.used, a.index.value, b.index.value);
    }
    FirstFreeIsOne(WithIndex(e, a).vol.used, a.data, b.data);
  }

  lemma FirstFreeIsOne(used: seq<bool>, s: int, t: int)
    requires FirstFree(used, s) && FirstFree(used, t)
    ensures s == t
  {
  }

  lemma StaysTame(g: Growth, mid: Growth, length: int, log: seq<Append>)
    requires IndexOk(g) && StaysTrue(g, length) && Extended(g, mid, length, log)
    ensures Tame(g, log)
  {
  }

  /** The bytes after a tame growth. */
  lemma GrownToBytes(g: Growth, r: Growth)
    requires GrownTo(g, r)
    ensures Readable(g.d, g.vol.view) && Readable(r.d, r.vol.view)
    ensures forall p :: 0 <= p < Blocks(r.d) * SECTOR_SIZE ==>
              ByteAt(r.d, r.vol.view, p) == if p < Blocks(g.d) * SECTOR_SIZE then ByteAt(g.d, g.vol.view, p) else 0
  {
  }

  lemma GrownToContent(g: Growth, r: Growth)
    requires GrownTo(g, r) && g.d.length <= r.d.length
    requires Readable(g.d, g.vol.view) && CleanTail(g.d, g.vol.view)
    ensures Readable(r.d, r.vol.view) && CleanTail(r.d, r.vol.view)
    ensures Content(r.d, r.vol.view) == Content(g.d, g.vol.view) + Zeros(r.d.length - g.d.length)
  {
    hide GrownTo;
    GrownToBytes(g, r);
    hide Readable, ByteAt;
    assert Blocks(g.d) <= Blocks(r.d) by { GrownIsSound(g, r); }
  }

  /** Storing data in a file's own sectors leaves its block map alone. */
  lemma StoredEntries(d: InodeData, vol: Volume, view: seq<Sector>, b: nat)
    requires Mapped(d, vol) && |view| == |vol.view| && b < Blocks(d)
    requires forall s :: 0 <= s < |view| && !OwnsSector(d, vol.view, s) ==> view[s] == vol.view[s]
    ensures b >= NUM_DIRECT ==> d.indirect[Group(b)] < |view|
    ensures Entry(d, view, b) == Entry(d, vol.view, b)
  {
    if b >= NUM_DIRECT {
      assert !OwnsSector(d, vol.view, d.indirect[Group(b)]);
    }
  }

  lemma StoredSound(g: Growth, view: seq<Sector>, offset: nat, data: seq<byte>)
    requires Sound(g) && Stored(g.d, g.vol.view, view, offset, data)
    ensures Sound(Growth(g.d, Volume(g.vol.used, view)))
  {
    var r := Growth(g.d, Volume(g.vol.used, view));
    forall b | 0 <= b < Blocks(g.d) ensures Entry(g.d, view, b) == Entry(g.d, g.vol.view, b) {
      StoredEntries(g.d, g.vol, view, b);
    }
    hide Entry, Mapped, Stored;
    assert SameMap(g, r);
    SameMapSound(g, r);
  }

  /**
   inode_write_at on a file of any length refines an assignment to its byte sequence if the appends are
   tame, and the file stays one that can be written.
   */
  lemma TameWriteRefines(g: Growth, mid: Growth, g': Growth, offset: nat, data: seq<byte>, log: seq<Append>, w: nat)
    requires Sound(g) && WriteOutcome(g, mid, g', offset, data, log, w) && Tame(g, log)
    requires CleanTail(g.d, g.vol.view)
    ensures Sound(g') && CleanTail(g'.d, g'.vol.view) && g.d.length <= g'.d.length
    ensures Content(g'.d, g'.vol.view) == Written(Content(g.d, g.vol.view), g'.d.length, offset, data[..w])
  {
    hide GrownTo, Tame, Mapped, Extended, IndexOk, Stored, CleanTail, Content;
    ExtendedLength(g, mid, offset + |data|, log);
    ExtendedGrows(g, mid, offset + |data|, log);
    GrownIsSound(g, mid);
    assert g.d.length <= mid.d.length;
    GrownToContent(g, mid);
    StoredSound(mid, g'.vol.view, offset, data[..w]);
    StoredContent(mid.d, mid.vol.view, g'.vol.view, offset, data[..w]);
  }

  lemma GrownIsSound(g: Growth, r: Growth)
    requires GrownTo(g, r)
    ensures Sound(g) && Sound(r) && Readable(g.d, g.vol.view) && Readable(r.d, r.vol.view)
    ensures Blocks(g.d) <= Blocks(r.d)
  {
  }

  /** Such a write leaves any marked sector alone that is neither a block of the file nor one of its index sectors. */
  lemma TameWriteFrame(g: Growth, mid: Growth, g': Growth, offset: nat, data: seq<byte>, log: seq<Append>, w: nat, s: nat)
    requires Sound(g) && WriteOutcome(g, mid, g', offset, data, log, w) && Tame(g, log)
    requires s < |g.vol.used| && g.vol.used[s] && !OwnsSector(g.d, g.vol.view, s)
    ensures |g'.vol.used| == |g.vol.used| == |g'.vol.view| && WfInode(g'.d) && g'.vol.used[s]
    ensures Blocks(g'.d) < NUM_DIRECT + NUM_INDIRECT * INDIRECT_LEN
    ensures IndexSector(g'.d, s) || g'.vol.view[s] == g.vol.view[s]
  {
    ExtendedGrows(g, mid, offset + |data|, log);
    assert !OwnsSector(mid.d, mid.vol.view, s);
  }
}
