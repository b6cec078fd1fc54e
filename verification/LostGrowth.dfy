/**
 A run of module FileProtocol that loses a sector: an empty file is made, opened, written and closed
 (file-system/filesys/inode.c:255-283). Its block stays marked with no role, though nothing else has happened.
 */
module LostGrowth {
  import opened Machine
  import opened FreeSectors
  import opened InodeMap
  import opened InodeCodec
  import opened FileContent
  import opened Inodes
  import FileRuns
  import opened FileProtocol
  import opened FileInterleavings
  import opened FileConservation

  /** Sector 0 is reserved, sector 1 the inode's, sector 2 unused or the block. */
  ghost function At(used2: bool, inode: Sector, block: Sector, pending: set<int>, live: set<int>,
                    open: map<int, FileRuns.OpenInode>, pc: Pc): State {
    State(Volume([true, true, used2], [ZeroSector(), inode, block]), {0}, pending, live, open, true, [pc])
  }

  ghost function Opened(d: InodeData): map<int, FileRuns.OpenInode> { map[1 := FileRuns.OpenInode(1, false, d)] }

  ghost function Grew(length: int): InodeData { WithBlock(EmptyInode(), 2).(length := length) }

  ghost function Inode(): Sector { EncodeInode(EmptyInode()) }

  ghost function Data7(): Sector { Splice(ZeroSector(), 0, [7]) }

  ghost function States(): seq<State> {
    var z := ZeroSector();
    [At(false, z, z, {0, 1}, {}, map[], Idle),
     At(false, z, z, {0}, {}, map[], Creating(1, 0, EmptyInode())),
     At(false, Inode(), z, {0}, {1}, map[], Idle),
     At(false, Inode(), z, {0}, {1}, Opened(EmptyInode()), Idle),
     At(false, Inode(), z, {0}, {1}, Opened(EmptyInode()), Growing(1, 0, [7])),
     At(true, Inode(), z, {0}, {1}, Opened(EmptyInode()), GrowTook(1, 0, [7], 2)),
     At(true, Inode(), z, {0}, {1}, Opened(Grew(SECTOR_SIZE)), Growing(1, 0, [7])),
     At(true, Inode(), z, {0}, {1}, Opened(Grew(1)), Storing(1, 0, [7], 0)),
     At(true, Inode(), Data7(), {0}, {1}, Opened(Grew(1)), Storing(1, 0, [7], 1)),
     At(true, Inode(), Data7(), {0}, {1}, Opened(Grew(1)), Idle),
     At(true, Inode(), Data7(), {0}, {1}, map[], Idle)]
  }

  ghost function Ops(): seq<Op> {
    [BeginCreate(1, 0), Go, Open(1), BeginWrite(1, 0, [7]), Take(2), Go, Go, Go, Go, Close(1)]
  }

  ghost function Who(): seq<nat> { [0, 0, 0, 0, 0, 0, 0, 0, 0, 0] }

  lemma DiskIs(used2: bool, block: Sector, open: map<int, FileRuns.OpenInode>, pc: Pc)
    ensures Disk(At(used2, Inode(), block, {0}, {1}, open, pc), 1) == EmptyInode()
  {
    DecodeEncode(EmptyInode());
  }

  lemma Creates2()
    ensures Step(States()[0], 0, Ops()[0], States()[1]) && Step(States()[1], 0, Ops()[1], States()[2])
  {
    hide EncodeInode, DecodeInode;
    assert States()[0].pending - {1} == {0};
    assert States()[1].vol.view[1 := Inode()] == States()[2].vol.view;
    assert States()[1].live + {1} == {1};
    assert EmptyInode().(length := Max(0, 0)) == EmptyInode();
    assert Creates(States()[1], 0, Go, States()[2]);
  }

  lemma Opens()
    ensures Step(States()[2], 0, Ops()[2], States()[3]) && Step(States()[3], 0, Ops()[3], States()[4])
  {
    DiskIs(false, ZeroSector(), map[], Idle);
    hide EncodeInode, DecodeInode;
    NotBusy(States()[2]);
    NotBusy(States()[3]);
    assert Begins(States()[2], 0, Open(1), States()[3]);
    assert EmptyInode().(length := RoundUp(0, SECTOR_SIZE)) == EmptyInode();
    assert Begins(States()[3], 0, BeginWrite(1, 0, [7]), States()[4]);
  }

  lemma NotBusy(st: State)
    requires st.pcs == [Idle]
    ensures !Busy(st, 1)
  {
  }

  lemma Grows()
    ensures Step(States()[4], 0, Ops()[4], States()[5]) && Step(States()[5], 0, Ops()[5], States()[6])
    ensures Step(States()[6], 0, Ops()[6], States()[7])
  {
    hide EncodeInode, DecodeInode;
    assert Finds(States()[4], 2);
    assert States()[4].vol.used[2 := true] == States()[5].vol.used;
    assert Writes(States()[4], 0, Take(2), States()[5]);
    assert Blocks(EmptyInode()) == 0;
    assert WithBlock(EmptyInode(), 2) == Grew(SECTOR_SIZE);
    assert States()[5].vol.view[2 := ZeroSector()] == States()[6].vol.view;
    assert Writes(States()[5], 0, Go, States()[6]);
    assert Writes(States()[6], 0, Go, States()[7]);
  }

  lemma Stores()
    ensures Step(States()[7], 0, Ops()[7], States()[8]) && Step(States()[8], 0, Ops()[8], States()[9])
  {
    hide EncodeInode, DecodeInode;
    var st := States()[7];
    assert Blocks(EmptyInode()) == 0 && Grew(1).direct[0] == 2;
    assert [7][0..0 + 1] == [7];
    assert ChunkSize(1, 0, 1) == 1;
    assert st.vol.view[2 := Data7()] == States()[8].vol.view;
    assert Writes(st, 0, Go, States()[8]);
    assert Writes(States()[8], 0, Go, States()[9]);
  }

  lemma Closed()
    ensures Step(States()[9], 0, Ops()[9], States()[10]) && 2 in Forgets(States()[9], 0, Close(1))
  {
    DiskIs(true, Data7(), Opened(Grew(1)), Idle);
    hide EncodeInode, DecodeInode;
    NotBusy(States()[9]);
    assert States()[9].open - {1} == map[];
    assert Begins(States()[9], 0, Close(1), States()[10]);
    assert Blocks(EmptyInode()) == 0 && Blocks(Grew(1)) == 1 && Grew(1).direct[0] == 2;
    assert Grown(States()[9], 1, 0);
  }

  lemma IsRun()
    ensures Run(States(), Who(), Ops())
  {
    Creates2();
    Opens();
    Grows();
    Stores();
    Closed();
    hide Step, At;
    assert Init(States()[0]) by { Starts(); }
    TenSteps(States(), Ops());
  }

  lemma Starts()
    ensures Init(States()[0])
  {
  }

  lemma TenSteps(s: seq<State>, o: seq<Op>)
    requires |s| == 11 && |o| == 10 && Init(s[0])
    requires Step(s[0], 0, o[0], s[1]) && Step(s[1], 0, o[1], s[2]) && Step(s[2], 0, o[2], s[3]) && Step(s[3], 0, o[3], s[4])
    requires Step(s[4], 0, o[4], s[5]) && Step(s[5], 0, o[5], s[6]) && Step(s[6], 0, o[6], s[7]) && Step(s[7], 0, o[7], s[8])
    requires Step(s[8], 0, o[8], s[9]) && Step(s[9], 0, o[9], s[10])
    ensures Run(s, Who(), o)
  {
    hide Step, Init;
    forall k | 0 <= k < 10 ensures Step(s[k], Who()[k], o[k], s[k + 1]) {
      assert Who()[k] == 0;
      if k < 5 {
        if k == 0 {} else if k == 1 {} else if k == 2 {} else if k == 3 {}
      } else {
        if k == 5 {} else if k == 6 {} else if k == 7 {} else if k == 8 {}
      }
    }
  }

  /** After creating, opening, writing one byte and closing, sector 2 is marked and has no role. */
  lemma GrowthIsLost()
    ensures Run(States(), Who(), Ops()) && |Ops()| == 10
    ensures States()[10].vol.used[2] && !exists o :: Claims(States()[10], o, 2)
  {
    IsRun();
    Closed();
    assert |States()[10].vol.used| == 3;
    hide Step, At, Claims, Forgets;
    assert 2 in Forgotten(States(), Who(), Ops(), 10);
    SectorsAreConserved(States(), Who(), Ops(), 10, 2);
  }
}
