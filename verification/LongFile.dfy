/**
 A file of 445 sectors whose block map is true, on a volume made for it: the shortest that takes an index
 sector, which is then never given back.
 */
module LongFile {
  import opened Machine
  import opened FreeSectors
  import opened InodeMap
  import opened IndexSectors
  import opened FileContent
  import opened IndexedFiles
  import opened Inodes
  import opened InodeTables

  const VOLUME := 40002

  /** The unused sectors: 188 for the direct blocks, 256 for the first index group, and the last two. */
  predicate Unused(s: int) {
    || 2 <= s < 190
    || (257 <= s <= 33152 && ((s - 257) % 257 == 0 || (s - 257) % 257 == 256))
    || 40000 <= s < 40002
  }

  /** They are numbered so that in the index group each one's low byte is the high byte of the one before. */
  function Nth(k: nat): (s: uint16)
    requires k < 446
  {
    if k < 188 then 2 + k
    else if k < 444 then 257 + 257 * ((k - 188) / 2) + (k - 188) % 2 * 256
    else 40000 + (k - 444)
  }

  function Place(s: int): nat
    requires Unused(s)
  {
    if s < 190 then s - 2
    else if s < 40000 then 188 + 2 * ((s - 257) / 257) + (if (s - 257) % 257 == 0 then 0 else 1)
    else 444 + (s - 40000)
  }

  lemma NthPlace(s: int)
    requires Unused(s)
    ensures Place(s) < 446 && Nth(Place(s)) == s
  {
  }

  lemma NthUnused(k: nat)
    requires k < 446
    ensures Unused(Nth(k)) && Nth(k) < VOLUME
  {
    if 188 <= k < 444 {
      var j := k - 188;
      assert (257 * (j / 2) + j % 2 * 256) % 257 == if j % 2 == 0 then 0 else 256;
    }
  }

  lemma NthNext(k: nat)
    requires k + 1 < 446
    ensures Nth(k) < Nth(k + 1)
  {
  }

  lemma {:induction false} NthRises(i: nat, j: nat)
    requires i < j < 446
    ensures Nth(i) < Nth(j)
    decreases j
  {
    NthNext(j - 1);
    if i < j - 1 {
      NthRises(i, j - 1);
    }
  }

  lemma NthEven(m: nat)
    requires m < 128
    ensures Nth(188 + 2 * m) == 256 * (m + 1) + (m + 1) && Nth(189 + 2 * m) == 256 * (m + 2) + (m + 1)
  {
    assert 2 * m / 2 == m && 2 * m % 2 == 0 && (2 * m + 1) / 2 == m && (2 * m + 1) % 2 == 1;
  }

  lemma HighLow(h: nat, l: nat)
    requires l < 256 && h < 256
    ensures High(256 * h + l) == h && Low(256 * h + l) == l
  {
  }

  lemma NthFits(k: nat)
    requires 188 < k < 444
    ensures High(Nth(k - 1)) == Low(Nth(k))
  {
    var m := (k - 188) / 2;
    NthEven(m);
    HighLow(m + 1, m + 1);
    HighLow(m + 2, m + 1);
    if k == 188 + 2 * m {
      NthEven(m - 1);
      HighLow(m + 1, m);
    } else {
      assert k == 189 + 2 * m;
    }
    hide Nth, High, Low;
  }

  ghost function Before(): Growth {
    Growth(EmptyInode(), Volume(seq(VOLUME, s => !Unused(s)), seq(VOLUME, _ => ZeroSector())))
  }

  function Entered(k: nat): Append
    requires k < 445
  {
    if k < 444 then Append(None, Nth(k)) else Append(Some(Nth(444)), Nth(445))
  }

  /** The first n appends. */
  function Log(n: nat): (log: seq<Append>)
    requires n <= 445
    ensures |log| == n && forall k :: 0 <= k < n ==> log[k] == Entered(k)
  {
    seq(n, k requires 0 <= k < n => Entered(k))
  }

  lemma TakenBelow(n: nat, s: int)
    requires n <= 444
    ensures InLog(Log(n), s) <==> Unused(s) && Place(s) < n
  {
    if InLog(Log(n), s) {
      var k :| 0 <= k < n && TakenBy(Log(n)[k], s);
      NthUnused(k);
      NthPlace(s);
      var p := Place(s);
      if p < k { NthRises(p, k); }
      if k < p { NthRises(k, p); }
    }
    if Unused(s) && Place(s) < n {
      NthPlace(s);
      assert TakenBy(Log(n)[Place(s)], s);
    }
  }

  lemma BeforeOk()
    ensures IndexOk(Before()) && Blocks(Before().d) == 0 && Sound(Before()) && Rounded(Before()) == Before()
  {
  }

  /** After n appends the next unused sector is the nth. */
  lemma NextIs(n: nat, e: Growth)
    requires n <= 444 && CanAppendAll(Before(), Log(n)) && e == AppendedAll(Before(), Log(n))
    ensures |e.vol.used| == VOLUME && Fresh(e.vol, Nth(n))
    ensures forall s :: 0 <= s < VOLUME ==> (e.vol.used[s] <==> !(Unused(s) && Place(s) >= n))
  {
    GrownUsed(Before(), Log(n));
    hide AppendedAll, CanAppendAll, InLog, Nth, Place, Unused;
    forall s | 0 <= s < VOLUME ensures e.vol.used[s] <==> !(Unused(s) && Place(s) >= n) {
      TakenBelow(n, s);
      assert Before().vol.used[s] == !Unused(s);
    }
    NthUnused(n);
    var x := Nth(n);
    PlaceNth(n);
    forall j | 0 <= j < x ensures e.vol.used[j] {
      if Unused(j) {
        NthPlace(j);
        if Place(j) > n { NthRises(n, Place(j)); }
      }
    }
  }

  lemma PlaceNth(k: nat)
    requires k < 446
    ensures Unused(Nth(k)) && Place(Nth(k)) == k
  {
    NthUnused(k);
    NthPlace(Nth(k));
    var p := Place(Nth(k));
    if p < k { NthRises(p, k); }
    if k < p { NthRises(k, p); }
  }

  lemma {:induction false} Appends(n: nat)
    requires n <= 444
    ensures CanAppendAll(Before(), Log(n))
    decreases n
  {
    BeforeOk();
    if n > 0 {
      Appends(n - 1);
      var e := AppendedAll(Before(), Log(n - 1));
      NextIs(n - 1, e);
      assert Log(n)[..n - 1] == Log(n - 1);
      OneAppend(n - 1, e);
    }
  }

  lemma OneAppend(k: nat, e: Growth)
    requires k < 444 && WfGrowth(e) && Blocks(e.d) == k && Fresh(e.vol, Nth(k))
    ensures CanAppend(e, Entered(k))
  {
    hide Nth, Fresh;
    NeedsIndexIff(e.d);
    FirstGroupStart(k);
  }

  /** The last append takes an index sector too. */
  lemma LastAppend(e: Growth)
    requires WfGrowth(e) && Blocks(e.d) == 444 && |e.vol.used| == VOLUME
    requires forall s :: 0 <= s < VOLUME ==> (e.vol.used[s] <==> s < 40000)
    ensures CanAppend(e, Entered(444))
    ensures forall s :: 0 <= s < VOLUME ==> Appended(e, Entered(444)).vol.used[s]
  {
    NeedsIndexIff(e.d);
    assert GroupOffset(444) == 0;
    LastMarks(e);
  }

  lemma LastMarks(e: Growth)
    requires WfGrowth(e) && Blocks(e.d) == 444 && NeedsIndex(e.d) && |e.vol.used| == VOLUME
    requires forall s :: 0 <= s < VOLUME ==> (e.vol.used[s] <==> s < 40000)
    ensures CanAppend(e, Entered(444))
    ensures forall s :: 0 <= s < VOLUME ==> Appended(e, Entered(444)).vol.used[s]
  {
    var a := Entered(444);
    assert a == Append(Some(40000), 40001);
    assert Fresh(e.vol, 40000);
    assert Fresh(WithIndex(e, a).vol, 40001);
    AppendedUsed(e, a);
    assert TakenBy(a, 40000) && TakenBy(a, 40001);
  }

  lemma LongLog()
    ensures CanAppendAll(Before(), Log(445))
    ensures forall s :: 0 <= s < VOLUME ==> AppendedAll(Before(), Log(445)).vol.used[s]
  {
    Appends(444);
    var e := AppendedAll(Before(), Log(444));
    BeforeOk();
    NextIs(444, e);
    forall s | 0 <= s < VOLUME ensures e.vol.used[s] <==> s < 40000 {
      if Unused(s) { NthPlace(s); }
    }
    LastAppend(e);
    assert Log(445)[..444] == Log(444);
  }

  lemma LongIsTame(n: nat)
    requires n <= 445
    ensures IndexOk(Before()) && Tame(Before(), Log(n))
  {
    BeforeOk();
    hide IndexOk;
    forall i | 0 <= i < n ensures FitsAt(Before(), Log(n), i) {
      if 188 < i < 444 {
        NthFits(i);
      }
    }
  }

  /** Growing to 446 sectors is tame on this volume, and stops at 445. */
  lemma GrowsTamely()
    ensures IndexOk(Before()) && StaysTrue(Before(), 446 * SECTOR_SIZE)
    ensures CanAppendAll(Before(), Log(445))
    ensures Extended(Before(), AppendedAll(Before(), Log(445)), 446 * SECTOR_SIZE, Log(445))
  {
    hide Nth, Unused;
    BeforeOk();
    LongLog();
    forall log: seq<Append> | CanAppendAll(Rounded(Before()), log) && (Blocks(Before().d) + |log| - 1) * SECTOR_SIZE < 446 * SECTOR_SIZE
      ensures Tame(Before(), log)
    {
      AtMost445(log);
      LogIsDetermined(Before(), log, Log(445));
      assert log == Log(|log|);
      LongIsTame(|log|);
    }
  }

  lemma AtMost445(log: seq<Append>)
    requires CanAppendAll(Before(), log)
    ensures |log| <= 445
  {
    if |log| > 445 {
      LongLog();
      AppendsInTurn(Before(), log, 445);
      LogIsDetermined(Before(), Log(445), log);
      assert log[..445] == Log(445);
      NoneLeft(AppendedAll(Before(), Log(445)), log[445]);
    }
  }

  lemma NoneLeft(e: Growth, a: Append)
    requires WfGrowth(e) && forall s :: 0 <= s < |e.vol.used| ==> e.vol.used[s]
    ensures !CanAppend(e, a)
  {
  }

  /** A failed inode_create of 446 sectors on this volume leaves sector 40000 marked. */
  lemma FailedCreateLeaks(vol': Volume)
    requires IndexLeft(Before().vol, vol', Log(445))
    ensures !Before().vol.used[40000] && vol'.used[40000]
  {
    LongLog();
    BeforeOk();
    LeftMarked(Before(), vol', Log(445), 444);
  }

  /** So does removing the file of 445 sectors that a create on this volume makes. */
  lemma RemovalLeaks(sector: nat, used': seq<bool>)
    requires sector != 40000 && CanAppendAll(Before(), Log(445))
    requires
      var r := AppendedAll(Before(), Log(445));
      ReleasedInode(sector, r.d, r.vol.view, r.vol.used, used')
    ensures used'[40000]
  {
    LongLog();
    LongIsTame(445);
    BeforeOk();
    TameGrows(Before(), Log(445));
    var r := AppendedAll(Before(), Log(445));
    SlotOf444(r);
    IndexSectorsLeak(sector, r.d, r.vol, used', 444);
  }

  lemma SlotOf444(r: Growth)
    requires CanAppendAll(Before(), Log(445)) && r == AppendedAll(Before(), Log(445))
    ensures WfInode(r.d) && Blocks(r.d) == 445 && r.d.indirect[Group(444)] == 40000 && |r.vol.used| == VOLUME && r.vol.used[40000]
  {
    hide Nth, Unused, Entered, Appended, CanAppend, IndexOk, EmptyInode;
    LongLog();
    Appends(444);
    BeforeOk();
    var e := AppendedAll(Before(), Log(444));
    assert Log(445)[..444] == Log(444);
    assert r == Appended(e, Entered(444)) && CanAppend(e, Entered(444));
    SlotAfter(e, r);
  }

  lemma SlotAfter(e: Growth, r: Growth)
    requires CanAppend(e, Entered(444)) && r == Appended(e, Entered(444)) && Blocks(e.d) == 444
    ensures r.d.indirect[Group(444)] == 40000
  {
    NeedsIndexIff(e.d);
    assert GroupOffset(444) == 0 && Entered(444).index == Some(40000);
  }
}
