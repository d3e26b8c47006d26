/** Runs of the model in which the code does not do what it is meant to do. */
module Findings {
  import opened Disks
  import opened FatCodes
  import opened Volumes
  import opened Bitmaps
  import opened Chains
  import opened Objects
  import opened ObjChains
  import opened Layout
  import opened Caches
  import opened Contents
  import opened Files
  import opened Sharing
  import opened Durability
  import opened FreeCounts

  /** The first sector of a FAT16 volume with nothing on it. */
  const EMPTY_FAT: Sector := seq(512, i => if i == 0 then 0xF8 else if i < 4 then 0xFF else 0)

  /** The same with one cluster in use, the only one of its chain. */
  const FULL_FAT: Sector := seq(512, i => if i == 0 then 0xF8 else if i < 6 then 0xFF else 0)

  const ZEROS: Sector := seq(512, _ => 0)
  const ONES: Sector := seq(512, _ => 1)
  const TWOS: Sector := seq(512, _ => 2)

  /** A device of two sectors, a FAT and one cluster. */
  method SmallDevice(fat: Sector, cluster: Sector, outcomes: seq<Outcome>) returns (fs: FatFs)
    ensures fresh(fs) && fresh(fs.disk) && fresh(fs.win) && fs.disk.script == outcomes
    ensures fs.Valid() && fs.fsType.FAT16? && fs.cSize == fs.nFats == fs.fSize == 1
    ensures fs.fatBase == 0 && fs.dataBase == 1 && fs.nFatEnt == 3
    ensures !fs.wFlag && fs.winSect == fs.freeClst == INVALID && fs.Logical() == [fat, cluster]
  {
    hide FatCodes.Table;
    var d := new Disk([fat, cluster], outcomes);
    fs := new FatFs(d, FAT16, 1, 1, 3, 1, 0, 1);
    assert fs.SectorOf(3) == fs.SectorOf(2) + 1 == 2;
  }

  lemma SmallTable(fs: FatFs, e: byte)
    requires fs.Valid() && fs.fsType.FAT16? && fs.fSize == 1 && fs.fatBase == 0 && fs.dataBase == 1 && fs.nFatEnt == 3
    requires fs.Logical()[0] == EMPTY_FAT[4 := e][5 := e]
    ensures fs.Table() == [0xFFF8, 0xFFFF, e as nat * 0x101]
  {
    hide FatCodes.Table;
    var a := fs.FatArea(fs.Logical());
    Table16(a, 3, 0);
    Table16(a, 3, 1);
    Table16(a, 3, 2);
  }

  /** That device with nothing on it. */
  method SmallVolume(outcomes: seq<Outcome>) returns (fs: FatFs)
    ensures fresh(fs) && fresh(fs.disk) && fresh(fs.win) && fs.disk.script == outcomes
    ensures fs.Valid() && fs.fsType.FAT16? && fs.fatBase == 0 && fs.dataBase == 1 && fs.nFatEnt == 3
    ensures !fs.wFlag && fs.winSect == fs.freeClst == INVALID
    ensures fs.Table() == [0xFFF8, 0xFFFF, 0]
  {
    hide FatFs.Valid, FatFs.Table, FatFs.Logical;
    fs := SmallDevice(EMPTY_FAT, ZEROS, outcomes);
    assert EMPTY_FAT[4 := 0][5 := 0] == EMPTY_FAT;
    SmallTable(fs, 0);
  }

  lemma NothingOwned(fs: FatFs)
    requires fs.Valid() && !fs.fsType.EXFAT? && 0 < fs.dataBase && (fs.winSect == INVALID || fs.InFat1(fs.winSect))
    ensures Owned(fs, Used(fs), []) && Away(fs, fs.winSect, Used(fs), [])
  {
    hide Away, FatFs.Table;
    MetaAway(fs, fs.winSect, Used(fs), []);
  }

  /** While the free count is 0, f_write() to a new file writes nothing, and reports no error. */
  method WriteToNew(fs: FatFs, w: seq<byte>) returns (res: FResult, bw: nat)
    requires fs.Valid() && !fs.fsType.EXFAT? && 0 < fs.dataBase && (fs.winSect == INVALID || fs.InFat1(fs.winSect))
    requires fs.freeClst == 0 && |fs.disk.script| == 0 && |w| < 0x1_0000_0000
    modifies fs, fs.win, fs.disk
    ensures res.OK? && bw == 0
  {
    hide FatFs.Table, FatFs.Logical, FatFs.Valid, FatFs.Shape, FatFs.InFat1, Away, Fil.Core, Fil.Positioned, Fil.Sized,
      Fil.Since, Used, Fil.NoRoom, Fil.BadEntry, OthersKept, BytesOf, Sectors, Owned, FfObj.Linked, OnDisk, Holds;
    NothingOwned(fs);
    var obj := new FfObj(fs);
    var fp := new Fil(obj, true, true);
    fp.EmptyWithoutChain();
    res, bw := fp.Write(w, |w|);
    fp.EmptyWithoutChain();
  }

  /** f_getfree() meets a fault on a volume with a free cluster.  From then on the free count is 0, which counts
      as valid, and f_write() writes nothing. */
  method BrokenScan() returns (res: FResult, nclst: nat, res': FResult, bw: nat, ghost u: seq<bool>)
    ensures res.DiskErr? && nclst == 0 && res'.OK? && bw == 0
    ensures |u| == 3 && !u[2]
  {
    hide FatFs.Table, FatFs.Logical, FatFs.Valid, FatFs.Shape;
    var fs := SmallVolume([Fault(_ => 0)]);
    UsedByTable(fs);
    ghost var c;
    res, nclst, c := GetFree(fs);
    u := Used(fs);
    res', bw := WriteToNew(fs, [1]);
  }

  /** Where the sector of FSInfo is the first of the FAT, as with one reserved sector, sync_fs() after a change of the
      free count makes the clusters up to number 120 free, whoever has them. */
  method InfoOverFat(fs: FatFs) returns (res: FResult)
    requires fs.Valid() && fs.fsType.FAT32? && 0 < fs.fatBase && fs.fsiFlag && |fs.disk.script| == 0
    modifies fs`wFlag, fs`winSect, fs`fsiFlag, fs.win, fs.disk`sec, fs.disk`script
    ensures res.OK? && fs.Valid() && forall c | 2 <= c <= 120 && c < fs.nFatEnt :: !Used(fs)[c]
  {
    hide FsInfo, FatCodes.Table, FatFs.SectorOf;
    ghost var free, last := fs.freeClst, fs.lastClst;
    var sound;
    res, sound := SyncFs(fs, fs.fatBase);
    ghost var a := fs.FatArea(fs.Logical());
    forall c | 2 <= c <= 120 && c < fs.nFatEnt
      ensures fs.Table()[c] == 0
    {
      forall i | 4 * c <= i < 4 * c + 4
        ensures i < |a| && a[i] == 0
      {
        assert fs.Logical()[fs.fatBase][i] == 0;
      }
      Table32(FAT32, a, fs.nFatEnt, c);
    }
  }

  // ---------------------------------------------------------------- a byte that reads differently

  /** The small device, without faults, the free count right or unknown, and no broken FAT entry. */
  ghost predicate Small(fs: FatFs)
    reads fs`freeClst, fs`wFlag, fs`winSect, fs.win, fs.disk
  {
    && fs.Valid() && fs.fsType.FAT16? && fs.cSize == fs.dataBase == 1 && fs.nFatEnt == 3
    && |fs.disk.script| == 0 && CountOk(fs) && fs.Table()[2] != 1
  }

  lemma SmallFacts(fs: FatFs)
    requires Small(fs)
    ensures fs.Valid() && fs.Shape() && |fs.disk.script| == 0 && fs.fsType.FAT16? && fs.cSize == fs.dataBase == 1
    ensures fs.nFatEnt == 3 && |Used(fs)| == 3 && |fs.Logical()| == fs.disk.size >= 2 && !fs.InFat1(1) && !fs.InFat2(1)
    ensures Sectors(fs, [2]) == [1] && Sectors(fs, []) == []
    ensures !Used(fs)[2] ==> fs.freeClst != 0 && !AllUsed(Used(fs))
  {
    hide FatFs.Table, FatFs.Logical;
    assert fs.SectorOf(3) == fs.SectorOf(2) + 1 == 2;
    assert Unused(Used(fs), 2) == 0;
    SectorAt(fs, [2], 0);
    SectorAt(fs, [], 0);
  }

  lemma SmallStays(fp: Fil, g: Start)
    requires fp.obj.fs.Valid() && fp.Since(g) && fp.Quiet() && g.counted && |g.t| == 3 && g.t[2] != 1
    requires fp.obj.fs.fsType.FAT16? && fp.obj.fs.cSize == fp.obj.fs.dataBase == 1 && fp.obj.fs.nFatEnt == 3
    ensures Small(fp.obj.fs)
    ensures fp.obj.chain == [] && |g.u| == 3 && !g.u[2] ==> !Used(fp.obj.fs)[2]
  {
    hide FatFs.Table, FatFs.Logical, Used;
  }

  lemma OnlyCluster(ch: seq<nat>)
    requires InTable(3, ch) && Distinct(ch) && ch != []
    ensures ch == [2]
  {
    assert ch[|ch| - 1] == ch[0];
  }

  /** File a has no cluster any more, but its buffer still shows b, and its number of the sector is that of the only
      cluster. */
  ghost predicate Loose(a: Fil, b: Sector)
    reads a, a.obj, a.buf, a.obj.fs`wFlag, a.obj.fs`winSect, a.obj.fs.win, a.obj.fs.disk`sec
  {
    && a.Usable() && a.err.OK? && a.forReading && a.forWriting && a.fptr == a.obj.objSize == 0 && a.obj.chain == []
    && a.sect == 1 && !a.dirty && !a.tracked && a.buf[..] == b
  }

  /** A file of one cluster, open for reading and writing. */
  method OldFile() returns (fs: FatFs, a: Fil)
    ensures fresh(fs) && fresh(fs.disk) && fresh(fs.win) && fresh(a) && fresh(a.obj) && fresh(a.buf)
    ensures Small(fs) && a.obj.fs == fs && Filled(a, ONES) && a.fptr == 0 && !a.modified
  {
    hide Owned, Holds, FatFs.Table, FatFs.Logical, FatFs.Valid, Fil.Core, FatFs.Shape;
    fs := SmallDevice(FULL_FAT, ONES, []);
    assert FULL_FAT == EMPTY_FAT[4 := 0xFF][5 := 0xFF];
    SmallTable(fs, 0xFF);
    OldParts(fs);
    var obj := new FfObj.Open(fs, 0, 2, 512, [2]);
    a := new Fil(obj, true, true);
    SmallFacts(fs);
  }

  lemma OldParts(fs: FatFs)
    requires fs.Valid() && fs.fsType.FAT16? && fs.cSize == fs.dataBase == 1 && fs.nFatEnt == 3
    requires fs.winSect == fs.freeClst == INVALID && |fs.disk.script| == 0 && fs.Table() == [0xFFF8, 0xFFFF, 0xFFFF]
    ensures Small(fs) && Owned(fs, Used(fs), [2]) && Holds(fs.Table(), ON_FAT, [2]) && Away(fs, INVALID, Used(fs), [2])
  {
    hide FatFs.Table, FatFs.Logical;
    MetaAway(fs, INVALID, Used(fs), [2]);
  }

  /** File a has the only cluster, with s in it. */
  ghost predicate Filled(a: Fil, s: Sector)
    reads a, a.obj, a.buf, a.obj.fs`wFlag, a.obj.fs`winSect, a.obj.fs.win, a.obj.fs.disk`sec
  {
    && a.Usable() && a.tracked && a.err.OK? && a.forReading && a.forWriting
    && a.obj.chain == [2] && a.obj.objSize == 512 && a.data == [s]
  }

  lemma FilledFacts(a: Fil, s: Sector)
    requires Small(a.obj.fs) && Filled(a, s)
    ensures a.Core() && a.Clear() && a.Content() == s && (a.fptr == 1 ==> a.sect == 1 && a.buf[..] == s)
  {
    hide FatFs.Table, FatFs.Logical, FatFs.Valid, FatFs.Shape, Used, Sectors, Holding, Owned, Holds;
    SmallFacts(a.obj.fs);
    a.TrackedIsClear(512);
  }

  lemma DataIs(a: Fil, s: Sector)
    requires Small(a.obj.fs) && a.Usable() && a.Content() == s
    ensures a.obj.chain == [2] && a.obj.objSize == 512 && a.data == [s]
  {
    hide FatFs.Table, FatFs.Logical, FatFs.Valid, FatFs.Shape, Used, Sectors, Holding, Owned, Holds;
    SmallFacts(a.obj.fs);
    a.ReadyFacts();
    a.CoreFacts();
    OnlyCluster(a.obj.chain);
    assert forall i | 0 <= i < 512 :: a.data[0][i] == ByteAt(a.data, i) == a.Content()[i];
    assert a.data[0] == s && a.data == [s];
  }

  lemma OnDiskNow(a: Fil)
    requires Small(a.obj.fs) && a.Core() && !a.dirty && a.obj.chain == [2] && a.obj.objSize == 512
    ensures |a.obj.fs.Logical()| >= 2 && a.Content() == a.obj.fs.Logical()[1]
  {
    hide FatFs.Table, FatFs.Logical, FatFs.Valid, FatFs.Shape, Used, Sectors, Holding, Owned, Holds;
    var fs := a.obj.fs;
    SmallFacts(fs);
    a.CoreFacts();
    CleanIsOnDisk(fs, [2], Used(fs), fs.Logical(), fs.winSect, a.data, a.Buffer());
    assert Sectors(fs, [2])[0] == 1;
    assert a.data[0] == fs.Logical()[1];
    assert forall i | 0 <= i < 512 :: a.data[0][i] == ByteAt(a.data, i) == a.Content()[i];
  }

  lemma FilledIs(a: Fil, s: Sector)
    requires Small(a.obj.fs) && a.Usable() && a.tracked && a.err.OK? && a.forReading && a.forWriting
    requires a.Content() == s
    ensures Filled(a, s)
  {
    hide Fil.Usable;
    DataIs(a, s);
  }

  lemma SmallNow(fp: Fil)
    requires Small(fp.obj.fs)
    ensures var g := fp.Now(); g.counted && |g.t| == |g.u| == 3 && g.t[2] != 1 && g.u == Used(fp.obj.fs)
    ensures fp.Quiet() && !fp.BadEntry()
  {
    hide FatFs.Table, FatFs.Logical, FatFs.Valid, FatFs.Shape, Used;
  }

  method SeekToStart(a: Fil, ghost s: Sector)
    requires Small(a.obj.fs) && a.Usable() && a.err.OK? && a.Content() == s
    modifies a, a.buf, a.obj, a.obj.fs, a.obj.fs.win, a.obj.fs.disk
    ensures Small(a.obj.fs) && a.Usable() && a.err.OK? && a.Content() == s
    ensures a.Since(old(a.Now())) && a.fptr == 0
    ensures a.sect == old(a.sect) && a.buf[..] == old(a.buf[..])
    ensures a.dirty == old(a.dirty) && a.tracked == old(a.tracked)
  {
    hide Fil.Core, Fil.Usable, Fil.Positioned, Fil.Sized, Fil.Since, FatFs.Table, FatFs.Logical, FatFs.Valid,
      FatFs.Shape, Used, Sectors, BytesOf, Owned, Holds, OthersKept, Fil.Own, Fil.Clear, Small, Fil.Now,
      Fil.BadEntry, Away, Holding, FfObj.Linked, Fil.NoRoom;
    SmallFacts(a.obj.fs);
    SmallNow(a);
    a.ReadyFacts();
    a.CoreFacts();
    ghost var g := a.Now();
    var res := a.Seek(0);
    SmallStays(a, g);
  }

  /** Its first byte is read. */
  method ReadFirst(a: Fil) returns (x: byte)
    requires Small(a.obj.fs) && Filled(a, ONES) && a.fptr == 0 && !a.modified
    modifies a, a.buf, a.obj, a.obj.fs, a.obj.fs.win, a.obj.fs.disk
    ensures x == 1 && Small(a.obj.fs) && Filled(a, ONES) && !a.dirty && a.fptr == 0 && a.sect == 1 && a.buf[..] == ONES
  {
    hide Fil.Core, Fil.Usable, Fil.Positioned, Fil.Sized, Fil.Since, FatFs.Table, FatFs.Logical, FatFs.Valid,
      FatFs.Shape, Used, Sectors, BytesOf, Owned, Holds, OthersKept, SameData, Fil.Own, Fil.Clear, Small, Fil.Now,
      Fil.BadEntry, Fil.NoRoom, Fil.Delivers, Fil.Seen;
    FilledFacts(a, ONES);
    SmallFacts(a.obj.fs);
    SmallNow(a);
    a.ReadyFacts();
    a.CoreFacts();
    var buff := new byte[1];
    ghost var g := a.Now();
    var res, br := a.Read(buff, 1);
    x := buff[0];
    a.ReadyFacts();
    SmallStays(a, g);
    FilledFacts(a, ONES);
    SmallNow(a);
    SeekToStart(a, ONES);
    FilledIs(a, ONES);
  }

  /** The file is cut off at its start; its buffer stays as it is. */
  method CutToNothing(a: Fil)
    requires Small(a.obj.fs) && Filled(a, ONES) && !a.dirty && a.fptr == 0 && a.sect == 1 && a.buf[..] == ONES
    modifies a, a.buf, a.obj, a.obj.fs, a.obj.fs.win, a.obj.fs.disk
    ensures Small(a.obj.fs) && Loose(a, ONES) && !Used(a.obj.fs)[2] && a.buf != a.obj.fs.win
  {
    hide Fil.Core, Fil.Usable, Fil.Positioned, Fil.Sized, Fil.Since, FatFs.Table, FatFs.Logical, FatFs.Valid,
      FatFs.Shape, Used, Sectors, BytesOf, Owned, Holds, OthersKept, SameData, Fil.Own, Fil.Clear, Small, Fil.Now,
      Fil.BadEntry, Fil.NoRoom;
    FilledFacts(a, ONES);
    SmallFacts(a.obj.fs);
    SmallNow(a);
    a.ReadyFacts();
    a.CoreFacts();
    ghost var g := a.Now();
    var res := a.Truncate();
    SmallStays(a, g);
    SmallFacts(a.obj.fs);
    a.ReadyFacts();
    assert a.obj.chain == [] && a.obj.objSize == |a.Content()| == 0;
    a.OwnIs();
    Forget(a);
  }

  // ---------------------------------------------------------------- meanwhile, another file

  /** An open file and another one, before something is done to the other one. */
  lemma Before(a: Fil, b: Fil)
    requires a.Usable() && b.Usable() && Beside(a, b) && a.obj.fs == b.obj.fs
    ensures OpenAt(a, b.Now()) && b.obj.fs.Valid() && b.obj.fs.Shape()
    ensures var g := b.Now(); Owned(b.obj.fs, g.u, g.ch) && Away(b.obj.fs, g.w, g.u, g.ch)
  {
    hide Fil.Core, Fil.Usable, OpenAt, Owned, Away, Beside, FatFs.Table, FatFs.Logical, FatFs.Valid, FatFs.Shape, Used;
    b.ReadyFacts();
    b.CoreFacts();
    OpenNow(b, a);
  }

  /** The same afterwards. */
  lemma After(a: Fil, b: Fil, g: Start)
    requires b.Usable() && a.obj.fs == b.obj.fs && OpenAt(a, g) && !a.tracked && !a.dirty && b.obj.fs.Shape()
    requires Owned(b.obj.fs, g.u, g.ch) && Away(b.obj.fs, g.w, g.u, g.ch)
    requires b.obj.fs.Valid() && b.Since(g)
    ensures a.Usable()
  {
    hide Fil.Core, Fil.Usable, OpenAt, Owned, Away, FatFs.Table, FatFs.Logical, FatFs.Valid, FatFs.Shape, Used,
      Fil.Since, Leaves;
    SinceLeaves(b, g, {});
    StaysOpen(a, g, b.Now(), {});
  }

  /** A new file. */
  method NewOther(a: Fil) returns (b: Fil)
    requires Small(a.obj.fs) && Loose(a, ONES)
    ensures fresh(b) && fresh(b.obj) && fresh(b.buf) && b.obj.fs == a.obj.fs && Beside(a, b)
    ensures b.Usable() && b.tracked && b.err.OK? && b.forReading && b.forWriting && b.obj.chain == []
    ensures b.fptr == b.obj.objSize == 0
  {
    hide Fil.Core, Fil.Usable, Fil.Positioned, Fil.Sized, Fil.Since, FatFs.Table, FatFs.Logical, FatFs.Valid,
      FatFs.Shape, Used, Sectors, Owned, Holds, Small, Away, Fil.Ready, FfObj.Linked, OnDisk;
    SmallFacts(a.obj.fs);
    a.ReadyFacts();
    a.CoreFacts();
    WindowAway(a);
    var obj := new FfObj(a.obj.fs);
    b := new Fil(obj, true, true);
    b.ReadyParts();
    b.ReadyFacts();
    b.EmptyWithoutChain();
  }

  /** It is given the free cluster, with twos in it. */
  method WriteOther(a: Fil, b: Fil)
    requires Small(a.obj.fs) && Loose(a, ONES) && !Used(a.obj.fs)[2] && b.obj.fs == a.obj.fs && Beside(a, b)
    requires b.Usable() && b.tracked && b.err.OK? && b.forReading && b.forWriting && b.obj.chain == []
    requires b.fptr == b.obj.objSize == 0 && a.buf != a.obj.fs.win
    modifies b, b.buf, b.obj, b.obj.fs, b.obj.fs.win, b.obj.fs.disk
    ensures Small(a.obj.fs) && Loose(a, ONES) && Filled(b, TWOS) && b.modified
  {
    hide Fil.Core, Fil.Usable, Fil.Positioned, Fil.Sized, Fil.Since, FatFs.Table, FatFs.Logical, FatFs.Valid,
      FatFs.Shape, Used, Sectors, BytesOf, Owned, Holds, OthersKept, SameData, Fil.Own, Fil.Clear, Small, Fil.Now,
      Fil.BadEntry, OpenAt, Away, Holding, AllUsed, FfObj.Linked, Filled;
    SmallFacts(a.obj.fs);
    b.ReadyFacts();
    b.ReadyParts();
    Before(a, b);
    SmallNow(b);
    ghost var g := b.Now();
    var res, bw := b.Write(TWOS, 512);
    SmallStays(b, g);
    After(a, b, g);
    SmallFacts(a.obj.fs);
    b.ReadyFacts();
    b.CoreFacts();
    if b.obj.chain != [] {
      OnlyCluster(b.obj.chain);
    }
    assert bw == 512 && b.Content() == Overwrite([], 0, TWOS[..512]) == TWOS;
    FilledIs(b, TWOS);
  }

  lemma WindowAway(a: Fil)
    requires a.Core() && a.obj.chain == []
    ensures var fs := a.obj.fs; Away(fs, fs.winSect, Used(fs), []) && 0 < fs.dataBase
  {
    hide FatFs.Table, FatFs.Logical, FatFs.Valid, FatFs.Shape, Used, Sectors, Owned, Holds;
  }

  /** What was written gets to the disk. */
  method SyncOther(a: Fil, b: Fil)
    requires Small(a.obj.fs) && Loose(a, ONES) && Filled(b, TWOS) && b.modified && b.obj.fs == a.obj.fs
    requires Beside(a, b) && a.buf != a.obj.fs.win
    modifies b, b.buf, b.obj, b.obj.fs, b.obj.fs.win, b.obj.fs.disk
    ensures Small(a.obj.fs) && Loose(a, ONES) && Filled(b, TWOS) && !b.dirty && b.obj.fs.Logical()[1] == TWOS
    ensures b.fptr == 0
  {
    hide Fil.Core, Fil.Usable, Fil.Positioned, Fil.Sized, Fil.Since, FatFs.Table, FatFs.Logical, FatFs.Valid,
      FatFs.Shape, Used, Sectors, BytesOf, Owned, Holds, OthersKept, SameData, Fil.Own, Fil.Clear, Small, Fil.Now,
      Fil.BadEntry, Fil.NoRoom, OpenAt, Away, Holding, FfObj.Linked, OnVolume;
    SmallFacts(a.obj.fs);
    FilledFacts(b, TWOS);
    Before(a, b);
    SmallNow(b);
    ghost var g := b.Now();
    var res := b.SyncData();
    SmallStays(b, g);
    After(a, b, g);
    SmallFacts(a.obj.fs);
    FilledIs(b, TWOS);
    Before(a, b);
    SmallNow(b);
    g := b.Now();
    SeekToStart(b, TWOS);
    SmallFacts(a.obj.fs);
    After(a, b, g);
    FilledIs(b, TWOS);
    FilledFacts(b, TWOS);
    OnDiskNow(b);
  }

  /** And the cluster is given back. */
  method CutOther(a: Fil, b: Fil)
    requires Small(a.obj.fs) && Loose(a, ONES) && Filled(b, TWOS) && !b.dirty && b.fptr == 0 && b.obj.fs == a.obj.fs
    requires a.obj.fs.Logical()[1] == TWOS && Beside(a, b) && a.buf != a.obj.fs.win
    modifies b, b.buf, b.obj, b.obj.fs, b.obj.fs.win, b.obj.fs.disk
    ensures Small(a.obj.fs) && Loose(a, ONES) && !Used(a.obj.fs)[2] && a.obj.fs.Logical()[1] == TWOS
  {
    hide Fil.Core, Fil.Usable, Fil.Positioned, Fil.Sized, Fil.Since, FatFs.Table, FatFs.Logical, FatFs.Valid,
      FatFs.Shape, Used, Sectors, BytesOf, Owned, Holds, OthersKept, Fil.Own, Fil.Clear, Small, Fil.Now,
      Fil.BadEntry, Fil.NoRoom, OpenAt, Away, Holding, FfObj.Linked;
    SmallFacts(a.obj.fs);
    FilledFacts(b, TWOS);
    Before(a, b);
    SmallNow(b);
    ghost var g := b.Now();
    var res := b.Truncate();
    SmallStays(b, g);
    After(a, b, g);
    SmallFacts(a.obj.fs);
    assert b.obj.chain == [];
  }

  /** All that is done to the other file. */
  method UseOther(a: Fil)
    requires Small(a.obj.fs) && Loose(a, ONES) && !Used(a.obj.fs)[2] && a.buf != a.obj.fs.win
    modifies a.obj.fs, a.obj.fs.win, a.obj.fs.disk
    ensures Small(a.obj.fs) && Loose(a, ONES) && !Used(a.obj.fs)[2] && a.obj.fs.Logical()[1] == TWOS
  {
    hide Small, Filled, FatFs.Valid, FatFs.Logical, Used, Fil.Usable;
    var b := NewOther(a);
    WriteOther(a, b);
    SyncOther(a, b);
    CutOther(a, b);
  }

  /** The cluster is taken back by a seek; the buffer stays as it is, and is again that of a sector of the file. */
  method TakeBack(a: Fil)
    requires Small(a.obj.fs) && Loose(a, ONES) && !Used(a.obj.fs)[2] && a.obj.fs.Logical()[1] == TWOS
    modifies a, a.buf, a.obj, a.obj.fs, a.obj.fs.win, a.obj.fs.disk
    ensures Small(a.obj.fs) && a.Usable() && a.err.OK? && a.forReading && a.Content() == TWOS
    ensures a.sect == 1 && a.buf[..] == ONES
  {
    hide Fil.Core, Fil.Usable, Fil.Positioned, Fil.Sized, Fil.Since, FatFs.Table, FatFs.Logical, FatFs.Valid,
      FatFs.Shape, Used, Sectors, BytesOf, Owned, Holds, OthersKept, Fil.Own, Fil.Clear, Small, Fil.Now,
      Fil.BadEntry, Away, Holding, FfObj.Linked, AllUsed;
    SmallFacts(a.obj.fs);
    SmallNow(a);
    a.ReadyFacts();
    a.CoreFacts();
    ghost var g := a.Now();
    var res := a.Seek(512);
    SmallStays(a, g);
    SmallFacts(a.obj.fs);
    a.ReadyFacts();
    a.CoreFacts();
    if a.obj.chain != [] {
      OnlyCluster(a.obj.chain);
    }
    assert a.fptr == 512;
    OnDiskNow(a);
  }

  /** The first byte is read by way of the buffer. */
  method ReadByte(a: Fil) returns (y: byte)
    requires Small(a.obj.fs) && a.Usable() && a.err.OK? && a.forReading && a.Content() == TWOS && a.fptr == 0
    requires a.sect == 1 && a.buf[..] == ONES
    modifies a, a.buf, a.obj.fs, a.obj.fs.win, a.obj.fs.disk
    ensures Small(a.obj.fs) && a.Usable() && a.err.OK? && a.Content() == TWOS && y == 1
  {
    hide Fil.Core, Fil.Usable, Fil.Positioned, Fil.Sized, Fil.Since, FatFs.Table, FatFs.Logical, FatFs.Valid,
      FatFs.Shape, Used, Sectors, BytesOf, Owned, Holds, OthersKept, Fil.Own, Fil.Clear, Small, Fil.Now,
      Fil.BadEntry, Away, Holding, FfObj.Linked, Fil.NoRoom;
    SmallFacts(a.obj.fs);
    SmallNow(a);
    a.ReadyFacts();
    DataIs(a, TWOS);
    var buff := new byte[1];
    ghost var g := a.Now();
    var res, br := a.Read(buff, 1);
    y := buff[0];
    SmallStays(a, g);
  }

  /** The first byte is read, with the whole sector, from the disk. */
  method ReadSector(a: Fil) returns (z: byte)
    requires Small(a.obj.fs) && a.Usable() && a.err.OK? && a.forReading && a.Content() == TWOS && a.fptr == 0
    modifies a, a.buf, a.obj.fs, a.obj.fs.win, a.obj.fs.disk
    ensures z == 2
  {
    hide Fil.Core, Fil.Usable, Fil.Positioned, Fil.Sized, Fil.Since, FatFs.Table, FatFs.Logical, FatFs.Valid,
      FatFs.Shape, Used, Sectors, BytesOf, Owned, Holds, OthersKept, Fil.Own, Fil.Clear, Small, Fil.Now,
      Fil.BadEntry, Away, Holding, FfObj.Linked, Fil.NoRoom, Fil.Seen;
    SmallFacts(a.obj.fs);
    SmallNow(a);
    a.ReadyFacts();
    DataIs(a, TWOS);
    var buff := new byte[512];
    var res, br := a.Read(buff, 512);
    z := buff[0];
  }

  /** One free cluster, two files.  The first reads its first byte and is cut off at the start; the second takes the
      cluster, writes it and gives it back; the first takes it back by a seek.  Then its first byte reads differently
      by itself and with the whole sector, although nothing was written to the file. */
  method TwoReads() returns (x: byte, y: byte, z: byte)
    ensures x == y == 1 && z == 2
  {
    hide *;
    var fs, a := OldFile();
    x := ReadFirst(a);
    CutToNothing(a);
    UseOther(a);
    TakeBack(a);
    SeekToStart(a, TWOS);
    y := ReadByte(a);
    SeekToStart(a, TWOS);
    z := ReadSector(a);
  }
}
