/**
 A run on which a write does not fill its gap with zeros. Growth is kept in memory only and is
 forgotten by the last close (file-system/filesys/inode.c:255-283), so the bytes a file had past the
 length its sector says are still in its last sector when it is opened and grown again.
 */
module StaleGap {
  import opened Machine
  import opened FreeSectors
  import opened InodeMap
  import opened FileContent
  import opened InodeCodec
  import opened Inodes
  import opened Space
  import opened FileRuns

  /** A file with sector 2 as its only block. */
  ghost function OneBlock(length: int): InodeData {
    InodeData(length, EmptyInode().direct[0 := 2], EmptyInode().indirect)
  }

  ghost function Marked(): seq<bool> { [true, true, true] }

  ghost function Sectors(block: Sector): seq<Sector> {
    [ZeroSector(), EncodeInode(OneBlock(100)), block]
  }

  ghost function Block0(): Sector { ZeroSector() }

  ghost function Block1(): Sector { Splice(Block0(), 150, [7]) }

  ghost function Block2(): Sector { Splice(Block1(), 200, [9]) }

  ghost function At(block: Sector, open: map<int, OpenInode>, stale: set<int>): Fs {
    Fs(Volume(Marked(), Sectors(block)), {FREE_MAP_SECTOR}, {FREE_MAP_SECTOR}, {1}, open, stale, true)
  }

  ghost function Fresh0(): Fs {
    Fs(Volume([true, true, false], [ZeroSector(), ZeroSector(), ZeroSector()]),
       {FREE_MAP_SECTOR}, {FREE_MAP_SECTOR, ROOT_DIR_SECTOR}, {}, map[], {}, true)
  }

  ghost function Opened(length: int): map<int, OpenInode> {
    map[1 := OpenInode(1, false, OneBlock(length))]
  }

  ghost function States(): seq<Fs> {
    [Fresh0(),
     At(Block0(), map[], {}),
     At(Block0(), Opened(100), {}),
     At(Block1(), Opened(151), {}),
     At(Block1(), map[], {1}),
     At(Block1(), Opened(100), {1}),
     At(Block2(), Opened(201), {1})]
  }

  ghost function Grow(block: Sector, length: int): Growth {
    Growth(OneBlock(length), Volume(Marked(), Sectors(block)))
  }

  ghost function Ops(): seq<Op> {
    [Create(1, 100, true, true, OneBlock(100)),
     Open(1),
     Write(1, 150, [7], Grow(Block0(), 151), [], 1),
     Close(1),
     Open(1),
     Write(1, 200, [9], Grow(Block1(), 201), [], 1)]
  }

  lemma CreateStep()
    ensures Step(States()[0], Ops()[0], States()[1])
  {
    var d, vol := OneBlock(100), Fresh0().vol;
    var mid := Volume(Marked(), vol.view);
    assert Blocks(d) == 1 && Blocks(EmptyInode()) == 0;
    assert forall s :: NewBlock(EmptyInode(), d, s) <==> s == 2 by {
      assert d.direct[0] == 2;
    }
    assert FreshlyGrown(EmptyInode(), vol, d, mid);
    assert States()[1].vol == Volume(mid.used, mid.view[1 := EncodeInode(d)]);
    assert Created(vol, States()[1].vol, 1, 100, d);
    assert Spare(vol.used) > 0 by {
      CountMarked(vol.used, 2);
    }
  }

  lemma OnDiskIs(block: Sector, open: map<int, OpenInode>, stale: set<int>)
    ensures OnDisk(At(block, open, stale), 1) == OneBlock(100)
  {
    DecodeEncode(OneBlock(100));
  }

  /** A one-byte write at offset p past the end, within the only sector. */
  lemma WriteStep(block: Sector, length: int, p: nat, b: byte, stale: set<int>)
    requires 0 <= length <= p < SECTOR_SIZE && length > 0
    ensures
      Step(At(block, Opened(length), stale), Write(1, p, [b], Grow(block, p + 1), [], 1),
           At(Splice(block, p, [b]), Opened(p + 1), stale))
  {
    var g, mid := Grow(block, length), Grow(block, p + 1);
    var block' := Splice(block, p, [b]);
    var d := OneBlock(p + 1);
    assert Blocks(OneBlock(length)) == 1 && Blocks(d) == 1;
    assert WfGrowth(g) && CanAppendAll(Rounded(g), []) && AppendedAll(Rounded(g), []) == Rounded(g);
    assert Rounded(g).d == OneBlock(SECTOR_SIZE);
    assert Extended(g, mid, p + 1, []);
    assert d.direct[0] == 2;
    assert OwnsSector(d, Sectors(block), 2) by { assert Entry(d, Sectors(block), 0) == 2; }
    assert [b][..1] == [b];
    assert Stored(d, Sectors(block), Sectors(block'), p, [b]) by {
      assert Readable(d, Sectors(block)) && Readable(d, Sectors(block'));
      assert forall q :: 0 <= q < SECTOR_SIZE ==>
        ByteAt(d, Sectors(block), q) == block[q] && ByteAt(d, Sectors(block'), q) == block'[q];
    }
    var fs, fs' := At(block, Opened(length), stale), At(block', Opened(p + 1), stale);
    assert WriteOutcome(g, mid, Grow(block', p + 1), p, [b], [], 1);
    assert fs'.open == fs.open[1 := fs.open[1].(data := mid.d)];
  }

  lemma OpenStep(block: Sector, stale: set<int>)
    ensures Step(At(block, map[], stale), Open(1), At(block, Opened(100), stale))
  {
    OnDiskIs(block, map[], stale);
  }

  lemma CloseStep()
    ensures Step(States()[3], Ops()[3], States()[4])
  {
    OnDiskIs(Block1(), Opened(151), {});
    assert States()[4].open == States()[3].open - {1};
  }

  lemma IsRun()
    ensures Run(States(), Ops())
  {
    hide Step, Sectors, OneBlock;
    CreateStep();
    OpenStep(Block0(), {});
    WriteStep(Block0(), 100, 150, 7, {});
    CloseStep();
    OpenStep(Block1(), {1});
    WriteStep(Block1(), 100, 200, 9, {1});
    RunOfSix(States(), Ops());
  }

  lemma RunOfSix(s: seq<Fs>, o: seq<Op>)
    requires |s| == 7 && |o| == 6 && Init(s[0])
    requires Step(s[0], o[0], s[1]) && Step(s[1], o[1], s[2]) && Step(s[2], o[2], s[3])
    requires Step(s[3], o[3], s[4]) && Step(s[4], o[4], s[5]) && Step(s[5], o[5], s[6])
    ensures Run(s, o)
  {
    hide Step, Init;
    forall k | 0 <= k < |o| ensures Step(s[k], o[k], s[k + 1]) {
      if k == 0 {
      } else if k == 1 {
      } else if k == 2 {
      } else if k == 3 {
      } else if k == 4 {
      }
    }
  }

  /** Created with 100 bytes, written at 150, closed, reopened (100 bytes again), written at 200: byte 150 reads 7, not 0. */
  lemma GapShowsOldByte()
    ensures Run(States(), Ops()) && |Ops()| == 6 && Ops()[5].Write?
    ensures !FileWritten(States()[5], Ops()[5], States()[6])
  {
    IsRun();
    var fs, fs' := States()[5], States()[6];
    var d, d' := OneBlock(100), OneBlock(201);
    assert DataOf(fs, 1) == d && DataOf(fs', 1) == d';
    var ideal := Written(Content(d, fs.vol.view), 201, 200, [9][..1]);
    assert ideal[150] == 0;
    assert Content(d', fs'.vol.view)[150] == ByteAt(d', fs'.vol.view, 150) == 7;
  }
}
