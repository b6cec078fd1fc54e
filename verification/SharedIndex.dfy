/**
 What a write to one file past its 188 direct sectors does to another file: every file's first index group is
 sector 0, so two files cannot both have it.
 */
module SharedIndex {
  import opened Machine
  import opened FreeSectors
  import opened InodeMap
  import opened FileContent
  import opened IndexedFiles

  /** The blocks of the first index group read the same for every file that has them. */
  lemma FirstGroupIsShared(g: Growth, h: Growth, b: nat)
    requires IndexOk(g) && IndexOk(h) && h.vol.view == g.vol.view
    requires NUM_DIRECT <= b < NUM_DIRECT + INDIRECT_LEN && b < Blocks(g.d) && b < Blocks(h.d)
    ensures Entry(h.d, h.vol.view, b) == Entry(g.d, g.vol.view, b)
  {
    assert Group(b) == 0;
  }

  /** Another file on the same volume: no sector it uses is one the first uses, sector 0 apart. */
  ghost predicate Apart(g: Growth, d: InodeData) {
    && Sound(g) && Sound(Growth(d, g.vol))
    && (forall c :: 0 <= c < Blocks(d) ==>
          && !OwnsSector(g.d, g.vol.view, Entry(d, g.vol.view, c)) && !IndexSector(g.d, Entry(d, g.vol.view, c)))
    && (forall k :: 0 < k < GroupsUsed(Blocks(d)) ==>
          !OwnsSector(g.d, g.vol.view, d.indirect[k]) && !IndexSector(g.d, d.indirect[k]))
  }

  /** So at most one of two such files is longer than 188 sectors. */
  lemma OnlyOneIsLong(g: Growth, d: InodeData)
    requires Apart(g, d)
    ensures Blocks(g.d) <= NUM_DIRECT || Blocks(d) <= NUM_DIRECT
  {
    assert Group(NUM_DIRECT) == 0;
  }

  // ---------------------------------------------------------------- the index sectors growth adds

  /** An index sector of r that was marked for g is one g had, or sector 0. */
  ghost predicate SlotsKept(g: Growth, r: Growth) {
    && IndexOk(g) && IndexOk(r) && |r.vol.used| == |g.vol.used|
    && (forall s :: 0 <= s < |g.vol.used| && g.vol.used[s] ==> r.vol.used[s])
    && forall s :: 0 <= s < |g.vol.used| && g.vol.used[s] && IndexSector(r.d, s) ==> s == FREE_MAP_SECTOR || IndexSector(g.d, s)
  }

  lemma SlotsNext(g: Growth, e: Growth, a: Append, r: Growth)
    requires SlotsKept(g, e) && CanAppend(e, a) && r == Appended(e, a)
    ensures SlotsKept(g, r)
  {
    NeedsIndexIff(e.d);
    AppendedIndexOk(e, a);
    AppendedUsed(e, a);
    forall s | 0 <= s < |g.vol.used| && g.vol.used[s] && IndexSector(r.d, s) ensures s == FREE_MAP_SECTOR || IndexSector(g.d, s) {
      var c :| NUM_DIRECT <= c < Blocks(r.d) && r.d.indirect[Group(c)] == s;
      SlotWas(e, a, r, c);
    }
  }

  lemma SlotWas(e: Growth, a: Append, r: Growth, c: nat)
    requires IndexOk(e) && CanAppend(e, a) && r == Appended(e, a) && NUM_DIRECT <= c < Blocks(r.d)
    ensures
      var x := r.d.indirect[Group(c)];
      x == FREE_MAP_SECTOR || IndexSector(e.d, x) || (x < |e.vol.used| && !e.vol.used[x])
  {
    NeedsIndexIff(e.d);
    AppendedIndexOk(e, a);
    AppendedUsed(e, a);
    var k := Group(c);
    if k == 0 {
    } else if k < GroupsUsed(Blocks(e.d)) {
      var f := NUM_DIRECT + INDIRECT_LEN * k;
      assert Group(f) == k && f < Blocks(e.d);
      assert e.d.indirect[Group(f)] == r.d.indirect[k];
    } else {
      assert NeedsIndex(e.d) && TakenBy(a, a.index.value);
    }
  }

  lemma {:induction false} GrownSlots(g: Growth, log: seq<Append>)
    requires IndexOk(g) && CanAppendAll(g, log)
    ensures SlotsKept(g, AppendedAll(g, log))
    decreases |log|
  {
    if log != [] {
      hide SlotsKept, Appended, CanAppend;
      GrownSlots(g, log[..|log| - 1]);
      SlotsNext(g, AppendedAll(g, log[..|log| - 1]), log[|log| - 1], AppendedAll(g, log));
    } else {
      hide CanAppendAll;
    }
  }

  lemma SameSlots(g: Growth, e: Growth, r: Growth)
    requires SlotsKept(g, e) && SameMap(e, r)
    ensures SlotsKept(g, r)
  {
    assert forall s :: IndexSector(r.d, s) ==> IndexSector(e.d, s) by {
      forall s | IndexSector(r.d, s) ensures IndexSector(e.d, s) {
        var c :| NUM_DIRECT <= c < Blocks(r.d) && r.d.indirect[Group(c)] == s;
        assert e.d.indirect[Group(c)] == s;
      }
    }
  }

  lemma ExtendedSlots(g: Growth, mid: Growth, length: int, log: seq<Append>)
    requires IndexOk(g) && Extended(g, mid, length, log)
    ensures SlotsKept(g, mid)
  {
    ExtendedLength(g, mid, length, log);
    if g.d.length < length {
      RoundedSame(g);
      GrownSlots(Rounded(g), log);
      var e := AppendedAll(Rounded(g), log);
      FromRounded(g, e);
      hide SlotsKept, SameMap;
      GrownIndexOk(Rounded(g), log);
      if e.d.length >= length {
        CutSame(e, mid);
      } else {
        FailedSame(e, mid);
      }
      SameSlots(g, e, mid);
    }
  }

  lemma FromRounded(g: Growth, e: Growth)
    requires IndexOk(g) && SameMap(g, Rounded(g)) && SlotsKept(Rounded(g), e)
    ensures SlotsKept(g, e)
  {
    assert forall s :: IndexSector(Rounded(g).d, s) <==> IndexSector(g.d, s);
  }

  // ---------------------------------------------------------------- the other file

  ghost predicate MapSame(d: InodeData, view: seq<Sector>, view': seq<Sector>)
    requires Readable(d, view) && |view'| == |view|
  {
    forall c :: 0 <= c < Blocks(d) ==> Entry(d, view', c) == Entry(d, view, c)
  }

  /** A marked sector of the other file, other than number 0, keeps its bytes. */
  lemma OthersSector(g: Growth, mid: Growth, g': Growth, offset: nat, data: seq<byte>, log: seq<Append>, w: nat, s: nat)
    requires Sound(g) && WriteOutcome(g, mid, g', offset, data, log, w) && Tame(g, log)
    requires s < |g.vol.used| && g.vol.used[s] && !OwnsSector(g.d, g.vol.view, s) && !IndexSector(g.d, s)
    requires s != FREE_MAP_SECTOR || Blocks(mid.d) <= NUM_DIRECT
    ensures |g'.vol.view| == |g.vol.view| && g'.vol.view[s] == g.vol.view[s]
  {
    hide Tame, Extended, Stored;
    TameWriteFrame(g, mid, g', offset, data, log, w, s);
    ExtendedSlots(g, mid, offset + |data|, log);
    ExtendedGrows(g, mid, offset + |data|, log);
  }

  /**
   A tame write leaves another file's block map alone exactly if not both files are longer than 188 sectors
   afterwards; and then it leaves the other's contents alone.
   */
  lemma OtherFileIff(g: Growth, mid: Growth, g': Growth, offset: nat, data: seq<byte>, log: seq<Append>, w: nat, d: InodeData)
    requires Apart(g, d) && WriteOutcome(g, mid, g', offset, data, log, w) && Tame(g, log)
    ensures Readable(d, g.vol.view) && |g'.vol.view| == |g.vol.view| && WfInode(mid.d)
    ensures MapSame(d, g.vol.view, g'.vol.view) <==> Blocks(d) <= NUM_DIRECT || Blocks(mid.d) <= NUM_DIRECT
    ensures MapSame(d, g.vol.view, g'.vol.view) ==>
              Readable(d, g'.vol.view) && Content(d, g'.vol.view) == Content(d, g.vol.view)
  {
    hide Tame, Extended, Stored;
    ExtendedGrows(g, mid, offset + |data|, log);
    GrownIsSound(g, mid);
    if Blocks(d) <= NUM_DIRECT || Blocks(mid.d) <= NUM_DIRECT {
      OtherKept(g, mid, g', offset, data, log, w, d);
    } else {
      OtherLost(g, mid, g', offset, data, log, w, d);
    }
  }

  lemma OtherKept(g: Growth, mid: Growth, g': Growth, offset: nat, data: seq<byte>, log: seq<Append>, w: nat, d: InodeData)
    requires Apart(g, d) && WriteOutcome(g, mid, g', offset, data, log, w) && Tame(g, log) && WfInode(mid.d)
    requires Blocks(d) <= NUM_DIRECT || Blocks(mid.d) <= NUM_DIRECT
    ensures Readable(d, g.vol.view) && |g'.vol.view| == |g.vol.view| && MapSame(d, g.vol.view, g'.vol.view)
    ensures Readable(d, g'.vol.view) && Content(d, g'.vol.view) == Content(d, g.vol.view)
  {
    OtherSectors(g, mid, g', offset, data, log, w, d);
    hide Tame, WriteOutcome, Sound, IndexSector;
    assert forall c :: 0 <= c < Blocks(d) ==> Entry(d, g'.vol.view, c) == Entry(d, g.vol.view, c);
    assert forall p :: 0 <= p < d.length ==> ByteAt(d, g'.vol.view, p) == ByteAt(d, g.vol.view, p);
  }

  /** Its blocks and the index sectors it is read from. */
  lemma OtherSectors(g: Growth, mid: Growth, g': Growth, offset: nat, data: seq<byte>, log: seq<Append>, w: nat, d: InodeData)
    requires Apart(g, d) && WriteOutcome(g, mid, g', offset, data, log, w) && Tame(g, log) && WfInode(mid.d)
    requires Blocks(d) <= NUM_DIRECT || Blocks(mid.d) <= NUM_DIRECT
    ensures Readable(d, g.vol.view) && |g'.vol.view| == |g.vol.view|
    ensures forall c :: 0 <= c < Blocks(d) ==>
              g'.vol.view[Entry(d, g.vol.view, c)] == g.vol.view[Entry(d, g.vol.view, c)]
    ensures forall c :: NUM_DIRECT <= c < Blocks(d) ==>
              d.indirect[Group(c)] < |g.vol.view| && g'.vol.view[d.indirect[Group(c)]] == g.vol.view[d.indirect[Group(c)]]
  {
    hide Tame, WriteOutcome, IndexOk;
    OtherSizes(g, mid, g', offset, data, log, w);
    forall c | 0 <= c < Blocks(d) ensures g'.vol.view[Entry(d, g.vol.view, c)] == g.vol.view[Entry(d, g.vol.view, c)] {
      assert !OwnsSector(g.d, g.vol.view, Entry(d, g.vol.view, c)) && OwnsSector(d, g.vol.view, Entry(d, g.vol.view, c));
      OthersSector(g, mid, g', offset, data, log, w, Entry(d, g.vol.view, c));
    }
    forall c | NUM_DIRECT <= c < Blocks(d)
      ensures d.indirect[Group(c)] < |g.vol.view| && g'.vol.view[d.indirect[Group(c)]] == g.vol.view[d.indirect[Group(c)]]
    {
      OtherIndex(g, d, c);
      OthersSector(g, mid, g', offset, data, log, w, d.indirect[Group(c)]);
    }
  }

  lemma OtherSizes(g: Growth, mid: Growth, g': Growth, offset: nat, data: seq<byte>, log: seq<Append>, w: nat)
    requires WriteOutcome(g, mid, g', offset, data, log, w)
    ensures |g'.vol.view| == |g.vol.view|
  {
    ExtendedLength(g, mid, offset + |data|, log);
  }

  /** The index sectors of the other file are marked and not the first file's. */
  lemma OtherIndex(g: Growth, d: InodeData, c: nat)
    requires Apart(g, d) && NUM_DIRECT <= c < Blocks(d)
    ensures
      var x := d.indirect[Group(c)];
      x < |g.vol.used| && g.vol.used[x] && !OwnsSector(g.d, g.vol.view, x) && !IndexSector(g.d, x)
  {
    OnlyOneIsLong(g, d);
    assert Group(c) < GroupsUsed(Blocks(d));
    assert !IndexSector(g.d, d.indirect[Group(c)]);
  }

  /** Both long: the other's block 188 now reads as the sector this file just took. */
  lemma OtherLost(g: Growth, mid: Growth, g': Growth, offset: nat, data: seq<byte>, log: seq<Append>, w: nat, d: InodeData)
    requires Apart(g, d) && WriteOutcome(g, mid, g', offset, data, log, w) && Tame(g, log) && WfInode(mid.d)
    requires Blocks(d) > NUM_DIRECT && Blocks(mid.d) > NUM_DIRECT
    ensures |g'.vol.view| == |g.vol.view| && Readable(d, g.vol.view)
    ensures Entry(d, g'.vol.view, NUM_DIRECT) != Entry(d, g.vol.view, NUM_DIRECT)
    ensures !MapSame(d, g.vol.view, g'.vol.view)
  {
    hide Tame, Extended;
    OtherSizes(g, mid, g', offset, data, log, w);
    OnlyOneIsLong(g, d);
    ExtendedGrows(g, mid, offset + |data|, log);
    GrownIsSound(g, mid);
    StoredEntries(mid.d, mid.vol, g'.vol.view, NUM_DIRECT);
    assert Group(NUM_DIRECT) == 0;
    assert Entry(d, g'.vol.view, NUM_DIRECT) == Entry(mid.d, g'.vol.view, NUM_DIRECT) == Entry(mid.d, mid.vol.view, NUM_DIRECT);
    assert !g.vol.used[Entry(mid.d, mid.vol.view, NUM_DIRECT)];
  }
}
