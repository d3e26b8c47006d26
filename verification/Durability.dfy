/** What f_sync() has written outlasts the mount: a file opened from the device alone has the same content. */
module Durability {
  import opened Disks
  import opened FatCodes
  import opened Volumes
  import opened Chains
  import opened ObjChains
  import opened Bitmaps
  import opened Objects
  import opened Layout
  import opened Caches
  import opened Contents
  import opened Files
  import opened Runs
  import opened Sharing

  // ---------------------------------------------------------------- what a mount does not change

  /** Two mounts of volumes with the same layout. */
  ghost predicate SameLayout(a: FatFs, b: FatFs) {
    && a.fsType == b.fsType && a.nFats == b.nFats && a.cSize == b.cSize && a.nFatEnt == b.nFatEnt
    && a.fSize == b.fSize && a.fatBase == b.fatBase && a.dataBase == b.dataBase && a.disk.size == b.disk.size
  }

  lemma {:induction false} SameSectorOf(a: FatFs, b: FatFs, c: nat)
    requires SameLayout(a, b)
    ensures a.SectorOf(c) == b.SectorOf(c)
  {
    if c > 2 {
      SameSectorOf(a, b, c - 1);
    }
  }

  lemma SameShape(a: FatFs, b: FatFs)
    requires SameLayout(a, b) && a.Shape() && b.win.Length == 512
    ensures b.Shape()
  {
    SameSectorOf(a, b, a.nFatEnt);
  }

  lemma SameSectors(a: FatFs, b: FatFs, ch: seq<nat>)
    requires SameLayout(a, b) && 0 < a.cSize
    ensures Sectors(a, ch) == Sectors(b, ch)
  {
    hide FatFs.SectorOf, Quot, Rem, Prod;
    forall k | 0 <= k < |Sectors(a, ch)|
      ensures |Sectors(b, ch)| == |Sectors(a, ch)| && Sectors(a, ch)[k] == Sectors(b, ch)[k]
    {
      SectorAt(a, ch, k);
      SectorAt(b, ch, k);
      SameSectorOf(a, b, ch[Quot(k, a.cSize)]);
    }
  }

  /** The clusters in use, as the disk l says. */
  ghost function UsedOn(fs: FatFs, l: seq<Sector>): (u: seq<bool>)
    requires fs.Shape() && |l| == fs.disk.size
    ensures |u| == fs.nFatEnt
  {
    if fs.fsType.EXFAT? then Bits(fs, l) else UsedIn(TableOn(fs, l))
  }

  ghost function TableOn(fs: FatFs, l: seq<Sector>): (t: seq<nat>)
    requires fs.Shape() && |l| == fs.disk.size
    ensures |t| == fs.nFatEnt
  {
    FatCodes.Table(fs.fsType, fs.FatArea(l), fs.nFatEnt)
  }

  lemma SameOn(a: FatFs, b: FatFs, l: seq<Sector>)
    requires SameLayout(a, b) && a.Shape() && b.Shape() && |l| == a.disk.size
    ensures TableOn(a, l) == TableOn(b, l) && UsedOn(a, l) == UsedOn(b, l)
  {
    hide FatCodes.Table, FatFs.SectorOf;
    assert a.FatArea(l) == b.FatArea(l);
    if a.fsType.EXFAT? {
      forall k | 0 <= k < a.nFatEnt - 2
        ensures BitAt(a, l, k) == BitAt(b, l, k)
      {
      }
    }
  }

  lemma OnLogical(fs: FatFs)
    requires fs.Valid()
    ensures TableOn(fs, fs.Logical()) == fs.Table() && UsedOn(fs, fs.Logical()) == Used(fs)
  {
  }

  lemma SameOwned(a: FatFs, b: FatFs, u: seq<bool>, ch: seq<nat>)
    requires SameLayout(a, b) && a.Shape() && b.Shape() && |u| == a.nFatEnt && Owned(a, u, ch)
    ensures Owned(b, u, ch)
  {
    forall c: nat
      ensures Reserved(a, c) == Reserved(b, c)
    {
      SameSectorOf(a, b, c);
    }
  }

  /** The disk l holds a file: its clusters are ch, as status a and the FAT describe them, and its bytes are
      the given ones. */
  ghost predicate Laid(fs: FatFs, l: seq<Sector>, a: Alloc, ch: seq<nat>, bytes: seq<byte>) {
    && fs.Shape() && |l| == fs.disk.size && 0 < fs.dataBase && InTable(fs.nFatEnt, ch)
    && (ch != [] ==> Holds(TableOn(fs, l), a, ch))
    && Owned(fs, UsedOn(fs, l), ch)
    && |bytes| <= |Sectors(fs, ch)| * 512 && bytes == BytesOf(OnDisk(fs, ch, l), |bytes|)
    && (if fs.fsType.EXFAT?
        then a.nFrag == 0 && (a.stat == 2 ==> |Sectors(fs, ch)| * 512 < Larger(|bytes|, 1) + fs.cSize * 512)
        else a == ON_FAT && |bytes| <= 0xFFFF_FFFF)
  }

  /** The same disk, mounted again. */
  lemma StillLaid(fs: FatFs, b: FatFs, l: seq<Sector>, a: Alloc, ch: seq<nat>, bytes: seq<byte>)
    requires Laid(fs, l, a, ch, bytes) && SameLayout(fs, b) && b.Shape()
    ensures Laid(b, l, a, ch, bytes)
  {
    hide Sectors, TableOn, UsedOn, Owned, Holds, BytesOf;
    SameSectors(fs, b, ch);
    SameOn(fs, b, l);
    SameOwned(fs, b, UsedOn(fs, l), ch);
    assert OnDisk(fs, ch, l) == OnDisk(b, ch, l);
  }

  /** How a file that is all on the volume is described. */
  ghost function OnVolumeStatus(obj: FfObj): Alloc
    reads obj`stat
  {
    if obj.fs.fsType.EXFAT? then Alloc(obj.stat, 0, 0) else ON_FAT
  }

  /** With a clean buffer a file holds what its sectors do. */
  lemma CleanIsOnDisk(fs: FatFs, ch: seq<nat>, u: seq<bool>, l: seq<Sector>, w: nat, data: seq<Sector>, ca: Cache)
    requires Holding(fs, ch, u, l, w, data, ca) && !ca.dirty
    ensures data == OnDisk(fs, ch, l)
  {
    hide Sectors;
  }

  /** A file with nothing left to write is laid down on the logical disk. */
  lemma LaidNow(fp: Fil)
    requires fp.Usable() && !fp.dirty
    requires fp.obj.fs.fsType.EXFAT? ==> fp.obj.stat != 3 && fp.obj.nFrag == 0
    ensures Laid(fp.obj.fs, fp.obj.fs.Logical(), OnVolumeStatus(fp.obj), fp.obj.chain, fp.Content())
  {
    hide Sectors, FatCodes.Table, Bits, Owned, BytesOf, Holding, FatFs.Shape, Fil.Positioned, OnDisk, FatFs.Logical;
    fp.CoreFacts();
    OnLogical(fp.obj.fs);
    HoldFacts(fp.obj.fs, fp.obj.chain, Used(fp.obj.fs), fp.obj.fs.Logical(), fp.obj.fs.winSect, fp.data, fp.Buffer());
    CleanIsOnDisk(fp.obj.fs, fp.obj.chain, Used(fp.obj.fs), fp.obj.fs.Logical(), fp.obj.fs.winSect, fp.data,
      fp.Buffer());
  }

  /** f_open() of a file that the disk holds. */
  method OpenLaid(fs: FatFs, flags: nat, start: nat, size: nat, reading: bool, writing: bool, ghost ch: seq<nat>,
    ghost bytes: seq<byte>) returns (fp: Fil)
    requires fs.Valid() && start == (if ch == [] then 0 else ch[0]) && size == |bytes|
    requires Laid(fs, fs.Logical(), if fs.fsType.EXFAT? then Alloc(Contiguous(flags), 0, 0) else ON_FAT, ch, bytes)
    requires Away(fs, fs.winSect, Used(fs), ch)
    ensures fresh(fp) && fresh(fp.obj) && fp.obj.fs == fs && fp.Ready() && fp.err.OK? && fp.fptr == 0
    ensures fp.Content() == bytes && fp.forReading == reading && fp.forWriting == writing
  {
    hide Sectors, FatCodes.Table, Bits, Owned, BytesOf, FatFs.Shape, OnDisk, FatFs.Logical, Away, Holds, Fil.Ready;
    OnLogical(fs);
    var obj := new FfObj.Open(fs, flags, start, size, ch);
    fp := new Fil(obj, reading, writing);
    fp.ReadyParts();
    fp.ReadyFacts();
  }

  // ---------------------------------------------------------------- the directory entry (FAT12/16/32)

  /** ld_clust() of the entry at `at`. */
  function LdClust(t: FsType, b: seq<byte>, at: nat): nat
    requires at + 32 <= |b|
  {
    Word(b, at + 26) + if t.FAT32? then 0x1_0000 * Word(b, at + 20) else 0
  }

  /** st_clust() */
  function StClust(t: FsType, b: seq<byte>, at: nat, cl: nat): (r: seq<byte>)
    requires at + 32 <= |b|
    ensures |r| == |b|
  {
    var r := StWord(b, at + 26, cl);
    if t.FAT32? then StWord(r, at + 20, cl / 0x1_0000) else r
  }

  /** The attributes with the one for a changed file (0x20). */
  function Archived(v: byte): byte {
    if v / 32 % 2 == 1 then v else ArchivedFits(v); v + 32
  }

  lemma ArchivedFits(v: byte)
    requires v / 32 % 2 != 1
    ensures v + 32 < 256
  {
  }

  /** What f_sync() makes of the sector b with the entry at `at`, at time tm. */
  function Entered(t: FsType, b: seq<byte>, at: nat, cl: nat, size: nat, tm: nat): (r: seq<byte>)
    requires at + 32 <= |b|
    ensures |r| == |b|
  {
    var r := StClust(t, b[at + 11 := Archived(b[at + 11])], at, cl);
    StWord(StDword(StDword(r, at + 28, size), at + 22, tm), at + 18, 0)
  }

  /** Bytes outside [lo, hi) are the same. */
  ghost predicate SameAround(a: seq<byte>, b: seq<byte>, lo: nat, hi: nat) {
    |a| == |b| && forall i | 0 <= i < |a| && !(lo <= i < hi) :: a[i] == b[i]
  }

  lemma WordAround(a: seq<byte>, i: nat, v: nat)
    requires i + 1 < |a|
    ensures SameAround(a, StWord(a, i, v), i, i + 2)
  {
  }

  lemma DwordAround(a: seq<byte>, i: nat, v: nat)
    requires i + 3 < |a|
    ensures SameAround(a, StDword(a, i, v), i, i + 4)
  {
  }

  lemma SameWord(a: seq<byte>, b: seq<byte>, lo: nat, hi: nat, i: nat)
    requires SameAround(a, b, lo, hi) && i + 1 < |a| && (i + 1 < lo || hi <= i)
    ensures Word(a, i) == Word(b, i)
  {
  }

  lemma ClusterSaid(t: FsType, b: seq<byte>, at: nat, cl: nat)
    requires at + 32 <= |b| && cl < (if t.FAT32? then 0x1_0000_0000 else 0x1_0000)
    ensures LdClust(t, StClust(t, b, at, cl), at) == cl && SameAround(b, StClust(t, b, at, cl), at + 20, at + 28)
  {
    hide Word, StWord, SameAround;
    var b1 := StWord(b, at + 26, cl);
    WordRoundTrip(b, at + 26, cl);
    WordAround(b, at + 26, cl);
    Wider(b, b1, at + 26, at + 28, at + 20, at + 28);
    if t.FAT32? {
      var b2 := StWord(b1, at + 20, cl / 0x1_0000);
      WordRoundTrip(b1, at + 20, cl / 0x1_0000);
      WordAround(b1, at + 20, cl / 0x1_0000);
      SameWord(b1, b2, at + 20, at + 22, at + 26);
      Wider(b1, b2, at + 20, at + 22, at + 20, at + 28);
      AroundTwice(b, b1, b2, at + 20, at + 28);
    }
  }

  lemma Wider(a: seq<byte>, b: seq<byte>, lo: nat, hi: nat, lo': nat, hi': nat)
    requires SameAround(a, b, lo, hi) && lo' <= lo && hi <= hi'
    ensures SameAround(a, b, lo', hi')
  {
  }

  lemma AroundTwice(a: seq<byte>, b: seq<byte>, c: seq<byte>, lo: nat, hi: nat)
    requires SameAround(a, b, lo, hi) && SameAround(b, c, lo, hi)
    ensures SameAround(a, c, lo, hi)
  {
  }

  /** What f_sync() is to make of the sector b with the entry at `at`: the attribute for a changed file is set (byte
      11), the last access cleared (18), the time of change stored (22), and start (26, and 20 on FAT32) and size
      (28); every other byte stays. */
  ghost predicate EntrySays(t: FsType, b: seq<byte>, r: seq<byte>, at: nat, cl: nat, size: nat, tm: nat) {
    && |r| == |b| && at + 32 <= |b|
    && r[at + 11] / 32 % 2 == 1 && r[at + 11] % 32 == b[at + 11] % 32 && r[at + 11] / 64 == b[at + 11] / 64
    && Word(r, at + 18) == 0 && Dword(r, at + 22) == tm % 0x1_0000_0000
    && LdClust(t, r, at) == cl && Dword(r, at + 28) == size
    && (forall i | 0 <= i < |b| && (i < at + 11 || at + 12 <= i < at + 18 || at + 32 <= i) :: r[i] == b[i])
    && (!t.FAT32? ==> r[at + 20] == b[at + 20] && r[at + 21] == b[at + 21])
  }

  /** The bytes that are not written. */
  lemma EnteredBeside(t: FsType, b: seq<byte>, at: nat, cl: nat, size: nat, tm: nat, i: nat)
    requires at + 32 <= |b| && i < |b|
    ensures var r := Entered(t, b, at, cl, size, tm);
      && (i < at + 11 || at + 12 <= i < at + 18 || at + 32 <= i || (at + 20 <= i < at + 22 && !t.FAT32?) ==>
            r[i] == b[i])
      && (i == at + 11 ==> r[i] == Archived(b[i]))
  {
    hide Archived;
  }

  /** The time, and the last access. */
  lemma EnteredTimes(t: FsType, b: seq<byte>, at: nat, cl: nat, size: nat, tm: nat)
    requires at + 32 <= |b|
    ensures var r := Entered(t, b, at, cl, size, tm);
      Word(r, at + 18) == 0 && Dword(r, at + 22) == tm % 0x1_0000_0000
  {
    hide Word, StWord, StDword, StClust, SameAround;
    var b3 := StDword(StClust(t, b[at + 11 := Archived(b[at + 11])], at, cl), at + 28, size);
    var b4 := StDword(b3, at + 22, tm);
    var b5 := StWord(b4, at + 18, 0);
    DwordRoundTrip(b3, at + 22, tm);
    WordRoundTrip(b4, at + 18, 0);
    WordAround(b4, at + 18, 0);
    SameWord(b4, b5, at + 18, at + 20, at + 22);
    SameWord(b4, b5, at + 18, at + 20, at + 24);
  }

  /** The entry says where the file begins, and how long it is; the other entries, and the name, stay. */
  lemma EnteredSays(t: FsType, b: seq<byte>, at: nat, cl: nat, size: nat, tm: nat)
    requires at + 32 <= |b| && cl < (if t.FAT32? then 0x1_0000_0000 else 0x1_0000) && size < 0x1_0000_0000
    ensures var r := Entered(t, b, at, cl, size, tm);
      EntrySays(t, b, r, at, cl, size, tm) && SameAround(b, r, at + 11, at + 32)
  {
    hide Word, StWord, StDword, StClust, SameAround;
    var lo, hi := at + 11, at + 32;
    var b1 := b[lo := Archived(b[lo])];
    var b2 := StClust(t, b1, at, cl);
    var b3 := StDword(b2, at + 28, size);
    var b4 := StDword(b3, at + 22, tm);
    var b5 := StWord(b4, at + 18, 0);
    ClusterSaid(t, b1, at, cl);
    DwordRoundTrip(b2, at + 28, size);
    DwordAround(b2, at + 28, size);
    DwordAround(b3, at + 22, tm);
    WordAround(b4, at + 18, 0);
    forall i | i == at + 20 || i == at + 26
      ensures Word(b2, i) == Word(b5, i)
    {
      SameWord(b2, b3, at + 28, at + 32, i);
      SameWord(b3, b4, at + 22, at + 26, i);
      SameWord(b4, b5, at + 18, at + 20, i);
    }
    forall i | i == at + 28 || i == at + 30
      ensures Word(b3, i) == Word(b5, i)
    {
      SameWord(b3, b4, at + 22, at + 26, i);
      SameWord(b4, b5, at + 18, at + 20, i);
    }
    OneByte(b, lo, Archived(b[lo]), hi);
    Wider(b1, b2, at + 20, at + 28, lo, hi);
    Wider(b2, b3, at + 28, at + 32, lo, hi);
    Wider(b3, b4, at + 22, at + 26, lo, hi);
    Wider(b4, b5, at + 18, at + 20, lo, hi);
    AroundTwice(b, b1, b2, lo, hi);
    AroundTwice(b, b2, b3, lo, hi);
    AroundTwice(b, b3, b4, lo, hi);
    AroundTwice(b, b4, b5, lo, hi);
    EnteredTimes(t, b, at, cl, size, tm);
    forall k | 0 <= k < |b|
      ensures k < at + 11 || at + 12 <= k < at + 18 || at + 32 <= k || (at + 20 <= k < at + 22 && !t.FAT32?) ==>
                b5[k] == b[k]
      ensures k == at + 11 ==> b5[k] == Archived(b[k])
    {
      EnteredBeside(t, b, at, cl, size, tm, k);
    }
  }

  lemma EntryMade(t: FsType, b: seq<byte>, at: nat, cl: nat, size: nat, tm: nat)
    requires at + 32 <= |b|
    ensures cl < (if t.FAT32? then 0x1_0000_0000 else 0x1_0000) && size < 0x1_0000_0000 ==>
              EntrySays(t, b, Entered(t, b, at, cl, size, tm), at, cl, size, tm)
  {
    hide Entered, EntrySays;
    if cl < (if t.FAT32? then 0x1_0000_0000 else 0x1_0000) && size < 0x1_0000_0000 {
      EnteredSays(t, b, at, cl, size, tm);
    }
  }

  lemma EntryTells(t: FsType, b: seq<byte>, at: nat, cl: nat, size: nat, tm: nat)
    requires at + 32 <= |b|
    ensures forall r | EntrySays(t, b, r, at, cl, size, tm) ::
              |r| == |b| && LdClust(t, r, at) == cl && Dword(r, at + 28) == size
  {
    hide LdClust, Dword, Word;
  }

  lemma OneByte(b: seq<byte>, i: nat, v: byte, hi: nat)
    requires i < |b| && i < hi
    ensures SameAround(b, b[i := v], i, hi)
  {
  }

  /** Equal but in the sectors x and the mirror. */
  ghost predicate SameBut(fs: FatFs, x: set<int>, l: seq<Sector>, m: seq<Sector>) {
    |l| == |m| && forall s | 0 <= s < |l| && s !in x && !fs.InFat2(s) :: l[s] == m[s]
  }

  /** Sectors of neither FAT, and of no cluster that is free or the file's. */
  ghost predicate Apartness(fs: FatFs, x: set<int>, u: seq<bool>, ch: seq<nat>)
    requires |u| == fs.nFatEnt
  {
    AllAway(fs, x, u, ch) && forall s | s in x :: !fs.InFat1(s) && !fs.InFat2(s)
  }

  /** A file stays laid down when its directory entry is stored. */
  lemma LaidAside(fs: FatFs, x: set<int>, l: seq<Sector>, m: seq<Sector>, a: Alloc, ch: seq<nat>, bytes: seq<byte>)
    requires Laid(fs, l, a, ch, bytes) && !fs.fsType.EXFAT? && SameBut(fs, x, l, m)
    requires Apartness(fs, x, UsedOn(fs, l), ch)
    ensures Laid(fs, m, a, ch, bytes) && UsedOn(fs, m) == UsedOn(fs, l) && TableOn(fs, m) == TableOn(fs, l)
  {
    hide Sectors, Owned, Holds, BytesOf, FatCodes.Table, Away;
    assert fs.FatArea(l) == fs.FatArea(m);
    SectorsOnDisk(fs, ch);
    forall k | 0 <= k < |Sectors(fs, ch)|
      ensures m[Sectors(fs, ch)[k]] == l[Sectors(fs, ch)[k]]
    {
      NotAside(fs, x, UsedOn(fs, l), ch, Sectors(fs, ch)[k]);
    }
    assert OnDisk(fs, ch, l) == OnDisk(fs, ch, m);
  }

  lemma NotAside(fs: FatFs, x: set<int>, u: seq<bool>, ch: seq<nat>, s: nat)
    requires fs.Shape() && |u| == fs.nFatEnt && Owned(fs, u, ch) && InTable(fs.nFatEnt, ch) && s in Sectors(fs, ch)
    requires AllAway(fs, x, u, ch)
    ensures s !in x && !fs.InFat2(s) && Home(fs, s)
  {
    hide Sectors, Owned, Away;
    SectorInHome(fs, u, ch, s);
    if s in x {
      NotInWindow(fs, s, u, ch, s);
    }
  }

  /** What an open file holds stays, if its buffer is its own. */
  lemma HoldAside(fs: FatFs, x: set<int>, l: seq<Sector>, m: seq<Sector>, w: nat, ch: seq<nat>, u: seq<bool>,
    data: seq<Sector>, ca: Cache, v: nat)
    requires Holding(fs, ch, u, l, w, data, ca) && SameBut(fs, x, l, m) && Owned(fs, u, ch) && v in x
    requires AllAway(fs, x, u, ch) && (ca.sect == 0 || ca.sect in Sectors(fs, ch))
    ensures Holding(fs, ch, u, m, v, data, ca)
  {
    hide Sectors, Owned, Away;
    forall s | s in Sectors(fs, ch)
      ensures s < |l| && m[s] == l[s]
    {
      NotAside(fs, x, u, ch, s);
    }
  }

  /** What is left to others: nothing but the sectors x changed since l. */
  lemma LeavesAside(fs: FatFs, g: Start, u: seq<bool>, ch: seq<nat>, l: seq<Sector>, t: seq<nat>, w: nat, x: set<int>,
    m: seq<Sector>, v: nat)
    requires fs.Shape() && Leaves(fs, g, u, ch, l, t, w, {}) && SameBut(fs, x, l, m) && v in x
    ensures Leaves(fs, g, u, ch, m, t, v, x)
  {
    hide Stays, LinksKept, Away;
  }

  // ---------------------------------------------------------------- sync_fs()

  /** The FSInfo sector. */
  function FsInfo(free: nat, last: nat): (b: seq<byte>)
    ensures |b| == 512
  {
    var b := StDword(StWord(seq(512, _ => 0), 510, 0xAA55), 0, 0x4161_5252);
    StDword(StDword(StDword(b, 484, 0x6141_7272), 488, free), 492, last)
  }

  /** The sector b is an FSInfo sector that tells the free count and the last cluster allocated. */
  ghost predicate InfoSays(b: seq<byte>, free: nat, last: nat) {
    && |b| == 512 && Dword(b, 0) == 0x4161_5252 && Dword(b, 484) == 0x6141_7272 && Word(b, 510) == 0xAA55
    && Dword(b, 488) == free % 0x1_0000_0000 && Dword(b, 492) == last % 0x1_0000_0000
    && forall i | 4 <= i < 484 || 496 <= i < 510 :: b[i] == 0
  }

  /** So does sector info of l, if there is one and it was due. */
  ghost predicate InfoStored(info: nat, due: bool, l: seq<Sector>, free: nat, last: nat) {
    info != 0 && due ==> info < |l| && InfoSays(l[info], free, last)
  }

  lemma FsInfoSays(free: nat, last: nat)
    ensures InfoSays(FsInfo(free, last), free, last)
  {
    hide Word, StWord, StDword, SameAround;
    var b := seq(512, _ => 0);
    var b1 := StWord(b, 510, 0xAA55);
    var b2 := StDword(b1, 0, 0x4161_5252);
    var b3 := StDword(b2, 484, 0x6141_7272);
    var b4 := StDword(b3, 488, free);
    var b5 := StDword(b4, 492, last);
    WordRoundTrip(b, 510, 0xAA55);
    DwordRoundTrip(b1, 0, 0x4161_5252);
    DwordRoundTrip(b2, 484, 0x6141_7272);
    DwordRoundTrip(b3, 488, free);
    DwordRoundTrip(b4, 492, last);
    WordAround(b, 510, 0xAA55);
    DwordAround(b1, 0, 0x4161_5252);
    DwordAround(b2, 484, 0x6141_7272);
    DwordAround(b3, 488, free);
    DwordAround(b4, 492, last);
    forall i | i == 0 || i == 2
      ensures Word(b5, i) == Word(b2, i)
    {
      SameWord(b2, b3, 484, 488, i);
      SameWord(b3, b4, 488, 492, i);
      SameWord(b4, b5, 492, 496, i);
    }
    forall i | i == 484 || i == 486
      ensures Word(b5, i) == Word(b3, i)
    {
      SameWord(b3, b4, 488, 492, i);
      SameWord(b4, b5, 492, 496, i);
    }
    SameWord(b4, b5, 492, 496, 488);
    SameWord(b4, b5, 492, 496, 490);
    SameWord(b1, b2, 0, 4, 510);
    SameWord(b2, b3, 484, 488, 510);
    SameWord(b3, b4, 488, 492, 510);
    SameWord(b4, b5, 492, 496, 510);
    forall i | 4 <= i < 484 || 496 <= i < 510
      ensures b5[i] == 0
    {
      AroundAt(b, b1, 510, 512, i);
      AroundAt(b1, b2, 0, 4, i);
      AroundAt(b2, b3, 484, 488, i);
      AroundAt(b3, b4, 488, 492, i);
      AroundAt(b4, b5, 492, 496, i);
    }
  }

  lemma AroundAt(a: seq<byte>, b: seq<byte>, lo: nat, hi: nat, i: nat)
    requires SameAround(a, b, lo, hi) && i < |a| && !(lo <= i < hi)
    ensures |b| == |a| && a[i] == b[i]
  {
  }

  /** sync_fs(), on a volume whose FSInfo sector is number info (0: none, or not in use).  A fault in the transfer of
      that sector goes unnoticed; then the window does not show what is on the disk (sound is false). */
  method SyncFs(fs: FatFs, info: nat) returns (res: FResult, sound: bool)
    requires fs.Valid() && (info != 0 ==> fs.fsType.FAT32?)
    modifies fs`wFlag, fs`winSect, fs`fsiFlag, fs.win, fs.disk`sec, fs.disk`script
    ensures |fs.disk.sec| == fs.disk.size && (res.OK? || res.DiskErr?)
    ensures SameBut(fs, if info != 0 && old(fs.fsiFlag) then {info} else {}, old(fs.Logical()), fs.disk.sec)
              || !res.OK?
    ensures sound ==> fs.Valid()
    ensures sound && res.OK? ==> !fs.wFlag && fs.Logical() == fs.disk.sec
    ensures sound && res.OK? ==>
              if info != 0 && old(fs.fsiFlag)
              then fs.winSect == info < |fs.disk.sec| && !fs.fsiFlag
              else fs.winSect == old(fs.winSect) && fs.fsiFlag == old(fs.fsiFlag)
    ensures sound && res.OK? ==> InfoStored(info, old(fs.fsiFlag), fs.disk.sec, fs.freeClst, fs.lastClst)
    ensures !res.OK? ==> sound && fs.SameButMirror(old(fs.Logical()), fs.Logical())
    ensures |old(fs.disk.script)| == 0 ==>
              res.OK? && |fs.disk.script| == 0 && (info < fs.disk.size ==> sound)
  {
    hide FsInfo, InfoSays;
    sound := true;
    res := fs.SyncWindow();
    if res.OK? && info != 0 && fs.fsiFlag {
      var b := FsInfo(fs.freeClst, fs.lastClst);
      FsInfoSays(fs.freeClst, fs.lastClst);
      forall i | 0 <= i < 512 {
        fs.win[i] := b[i];
      }
      assert fs.win[..] == b;
      fs.winSect := info;
      var ok := fs.disk.Write(b, info, 1);
      fs.fsiFlag := false;
      sound := ok;
    }
  }

  /** Store start and size in the entry, if its sector can be had (found), and sync_fs(). */
  method StoreEntry(fs: FatFs, d: nat, at: nat, cl: nat, size: nat, tm: nat, info: nat)
    returns (res: FResult, found: bool, sound: bool)
    requires fs.Valid() && d < fs.disk.size && !fs.InFat1(d) && !fs.InFat2(d) && at + 32 <= 512
    requires info != 0 ==> fs.fsType.FAT32? && info != d
    modifies fs`wFlag, fs`winSect, fs`fsiFlag, fs.win, fs.disk`sec, fs.disk`script
    ensures |fs.disk.sec| == fs.disk.size && (res.OK? || res.DiskErr?) && (res.OK? ==> found)
    ensures res.OK? ==> SameBut(fs, Touched(d, info), old(fs.Logical()), fs.disk.sec)
    ensures res.OK? ==> fs.disk.sec[d] == Entered(fs.fsType, old(fs.Logical())[d], at, cl, size, tm)
    ensures res.OK? && cl < (if fs.fsType.FAT32? then 0x1_0000_0000 else 0x1_0000) && size < 0x1_0000_0000 ==>
              EntrySays(fs.fsType, old(fs.Logical())[d], fs.disk.sec[d], at, cl, size, tm)
    ensures sound && res.OK? ==> InfoStored(info, old(fs.fsiFlag), fs.disk.sec, fs.freeClst, fs.lastClst)
    ensures sound ==> fs.Valid()
    ensures sound && res.OK? ==> !fs.wFlag && fs.winSect in Touched(d, info) && fs.Logical() == fs.disk.sec
    ensures !res.OK? ==> sound && SameBut(fs, {d}, old(fs.Logical()), fs.Logical())
    ensures |old(fs.disk.script)| == 0 ==>
              res.OK? && |fs.disk.script| == 0 && (info < fs.disk.size ==> sound)
  {
    hide Entered, FsInfo, InfoStored, EntrySays, FatFs.SectorOf, FatFs.MaxClusters, FatFs.MirrorOk, FatFs.MirrorFaults,
      FatFs.Transfers, FatFs.WriteBacks, Dropped;
    ghost var l := fs.Logical();
    EntryMade(fs.fsType, l[d], at, cl, size, tm);
    sound := true;
    res := fs.MoveWindow(d);
    found := res.OK?;
    if !found {
      return;
    }
    ghost var m := fs.Logical();
    var e := Entered(fs.fsType, fs.win[..], at, cl, size, tm);
    forall i | 0 <= i < 512 {
      fs.win[i] := e[i];
    }
    assert fs.win[..] == e;
    fs.wFlag := true;
    ghost var n := fs.Logical();
    assert n == m[d := e];
    res, sound := SyncFs(fs, info);
  }

  /** The sectors that f_sync() writes beside FAT and data: that of the directory entry, and FSInfo if in use. */
  function Touched(d: nat, info: nat): set<int> {
    if info == 0 then {d} else {d, info}
  }

  // ---------------------------------------------------------------- f_sync(), power off, f_open() (FAT12/16/32)

  /** The entry at `at` of sector d is in none of the FATs, in no cluster of the file's, and in no free one. */
  ghost predicate EntryFits(fs: FatFs, d: nat, at: nat, u: seq<bool>, ch: seq<nat>)
    requires |u| == fs.nFatEnt
  {
    d < fs.disk.size && !fs.InFat1(d) && !fs.InFat2(d) && at + 32 <= 512 && Away(fs, d, u, ch)
  }

  /** The disk l holds the file with the clusters ch and the given bytes, and its directory entry. */
  ghost predicate Recorded(fs: FatFs, l: seq<Sector>, d: nat, at: nat, ch: seq<nat>, bytes: seq<byte>) {
    && Laid(fs, l, ON_FAT, ch, bytes) && EntryFits(fs, d, at, UsedOn(fs, l), ch)
    && LdClust(fs.fsType, l[d], at) == (if ch == [] then 0 else ch[0]) && Dword(l[d], at + 28) == |bytes|
  }

  lemma StillRecorded(fs: FatFs, b: FatFs, l: seq<Sector>, d: nat, at: nat, ch: seq<nat>, bytes: seq<byte>)
    requires Recorded(fs, l, d, at, ch, bytes) && SameLayout(fs, b) && b.Shape()
    ensures Recorded(b, l, d, at, ch, bytes)
  {
    hide Laid, LdClust, Dword, UsedOn, TableOn;
    LaidFacts(fs, l, ON_FAT, ch, bytes);
    StillLaid(fs, b, l, ON_FAT, ch, bytes);
    SameOn(fs, b, l);
    forall c | 2 <= c < fs.nFatEnt && InCluster(b, d, c)
      ensures InCluster(fs, d, c)
    {
      SameSectorOf(fs, b, c);
    }
  }

  lemma LaidFacts(fs: FatFs, l: seq<Sector>, a: Alloc, ch: seq<nat>, bytes: seq<byte>)
    requires Laid(fs, l, a, ch, bytes)
    ensures fs.Shape() && |l| == fs.disk.size && InTable(fs.nFatEnt, ch)
    ensures !fs.fsType.EXFAT? ==> |bytes| <= 0xFFFF_FFFF
  {
  }

  /** The FSInfo sector, if there is one in use, lies before the FAT and holds no directory entry. */
  predicate InfoFits(fs: FatFs, d: nat, info: nat) {
    info != 0 ==> fs.fsType.FAT32? && info < fs.fatBase && info != d
  }

  lemma TouchedApart(fs: FatFs, d: nat, at: nat, info: nat, u: seq<bool>, ch: seq<nat>)
    requires fs.Shape() && |u| == fs.nFatEnt && EntryFits(fs, d, at, u, ch) && InfoFits(fs, d, info)
    ensures Apartness(fs, Touched(d, info), u, ch) && d in Touched(d, info)
    ensures info != 0 ==> info < fs.disk.size && info in Touched(d, info)
  {
  }

  /** An open file after its directory entry was stored. */
  lemma StaysUsable(fp: Fil, g: Start, x: set<int>)
    requires OpenAt(fp, g) && (fp.tracked || fp.dirty ==> fp.Own()) && fp.obj.fs.Valid()
    requires Used(fp.obj.fs) == g.u && fp.obj.fs.Table() == g.t && fp.obj.fs.winSect in x
    requires SameBut(fp.obj.fs, x, g.l, fp.obj.fs.Logical()) && Apartness(fp.obj.fs, x, g.u, fp.obj.chain)
    ensures fp.Usable() && Visible(fp) == Bare(fp)
  {
    hide *;
    var fs, ch := fp.obj.fs, fp.obj.chain;
    VolumeFacts(fs);
    OpenFacts(fp, g);
    StandingFacts(fp);
    ApartnessFacts(fs, x, g.u, ch);
    if fp.tracked || fp.dirty {
      BufferOwn(fp);
    } else {
      BufferForgotten(fp);
    }
    HoldAside(fs, x, g.l, fs.Logical(), g.w, ch, g.u, fp.data, fp.Buffer(), fs.winSect);
    DescribesIs(fp.obj);
    fp.CoreIs();
    fp.ReadyIs();
    VisibleIs(fp);
  }

  lemma ApartnessFacts(fs: FatFs, x: set<int>, u: seq<bool>, ch: seq<nat>)
    requires |u| == fs.nFatEnt && Apartness(fs, x, u, ch)
    ensures AllAway(fs, x, u, ch)
  {
    hide AllAway;
  }

  lemma StartFits(fs: FatFs, ch: seq<nat>)
    requires fs.Shape() && !fs.fsType.EXFAT? && InTable(fs.nFatEnt, ch)
    ensures ch != [] ==> ch[0] < if fs.fsType.FAT32? then 0x1_0000_0000 else 0x1_0000
  {
  }

  /** From l to m, of sector d at most the entry at `at` changed. */
  ghost predicate EntryOnly(d: nat, at: nat, l: seq<Sector>, m: seq<Sector>) {
    d < |l| == |m| && at + 32 <= 512 && SameAround(l[d], m[d], at + 11, at + 32)
  }

  lemma EntryOnlyIs(d: nat, at: nat, l: seq<Sector>, m: seq<Sector>)
    requires d < |l| == |m| && at + 32 <= 512 && SameAround(l[d], m[d], at + 11, at + 32)
    ensures EntryOnly(d, at, l, m)
  {
    hide SameAround;
  }

  /** Before that, the sector did not change. */
  lemma EntryOnlySince(fs: FatFs, g: Start, u: seq<bool>, ch: seq<nat>, l: seq<Sector>, t: seq<nat>, w: nat, d: nat,
    at: nat)
    requires fs.Shape() && !fs.fsType.EXFAT? && Leaves(fs, g, u, ch, l, t, w, {}) && |g.u| == fs.nFatEnt
    requires EntryFits(fs, d, at, g.u, g.ch)
    ensures EntryOnly(d, at, g.l, l) && l[d] == g.l[d] && forall m | EntryOnly(d, at, l, m) :: EntryOnly(d, at, g.l, m)
  {
    hide Stays, LinksKept, Away, SameAround;
    assert l[d] == g.l[d];
    AroundSelf(g.l[d], at + 11, at + 32);
  }

  lemma AroundSelf(a: seq<byte>, lo: nat, hi: nat)
    ensures SameAround(a, a, lo, hi)
  {
  }

  /** The directory entry of a file whose data is all on the volume. */
  method Record(fp: Fil, d: nat, at: nat, tm: nat, info: nat)
    returns (res: FResult, found: bool, sound: bool)
    requires fp.Usable() && !fp.dirty && (fp.tracked ==> fp.Own()) && !fp.obj.fs.fsType.EXFAT?
    requires EntryFits(fp.obj.fs, d, at, Used(fp.obj.fs), fp.obj.chain) && InfoFits(fp.obj.fs, d, info)
    modifies fp.obj.fs`wFlag, fp.obj.fs`winSect, fp.obj.fs`fsiFlag, fp.obj.fs.win
    modifies fp.obj.fs.disk`sec, fp.obj.fs.disk`script
    ensures |fp.obj.fs.disk.sec| == fp.obj.fs.disk.size && (res.OK? || res.DiskErr?) && (res.OK? ==> found)
    ensures res.OK? ==> Recorded(fp.obj.fs, fp.obj.fs.disk.sec, d, at, fp.obj.chain, old(fp.Content()))
    ensures res.OK? ==>
              EntrySays(fp.obj.fs.fsType, old(fp.obj.fs.Logical())[d], fp.obj.fs.disk.sec[d], at, fp.obj.sClust,
                fp.obj.objSize, tm)
    ensures sound && res.OK? ==>
              InfoStored(info, old(fp.obj.fs.fsiFlag), fp.obj.fs.disk.sec, fp.obj.fs.freeClst, fp.obj.fs.lastClst)
    ensures (sound ==> fp.obj.fs.Valid()) && (!res.OK? ==> sound)
    ensures sound && res.OK? ==> fp.Usable() && Visible(fp) == old(Visible(fp)) && !fp.obj.fs.wFlag
    ensures sound && res.OK? ==> fp.obj.fs.winSect in Touched(d, info) && Used(fp.obj.fs) == old(Used(fp.obj.fs))
    ensures sound && res.OK? ==>
              fp.obj.fs.Table() == old(fp.obj.fs.Table())
              && SameBut(fp.obj.fs, Touched(d, info), old(fp.obj.fs.Logical()), fp.obj.fs.Logical())
    ensures sound && res.OK? ==> EntryOnly(d, at, old(fp.obj.fs.Logical()), fp.obj.fs.Logical())
    ensures |old(fp.obj.fs.disk.script)| == 0 ==> res.OK? && sound && |fp.obj.fs.disk.script| == 0
  {
    hide *;
    fp.ReadyFacts();
    fp.CoreFacts();
    LaidNow(fp);
    ghost var fs, ch, l, h := fp.obj.fs, fp.obj.chain, fp.obj.fs.Logical(), fp.Now().(ch := []);
    ghost var bytes := fp.Content();
    StatusOnFat(fp.obj);
    OnLogical(fs);
    OpenAlone(fp);
    EntryPlace(fs, d, at, Used(fs), ch);
    TouchedApart(fs, d, at, info, Used(fs), ch);
    LaidFacts(fs, l, ON_FAT, ch, bytes);
    StartFits(fs, ch);
    NowParts(fp, h);
    fp.LinkedIs();
    InfoIs(fs, d, info);
    EnteredSays(fs.fsType, l[d], at, fp.obj.sClust, fp.obj.objSize, tm);
    EntryTells(fs.fsType, l[d], at, fp.obj.sClust, fp.obj.objSize, tm);
    res, found, sound := StoreEntry(fp.obj.fs, d, at, fp.obj.sClust, fp.obj.objSize, tm, info);
    if res.OK? {
      LaidAside(fs, Touched(d, info), l, fs.disk.sec, ON_FAT, ch, bytes);
      RecordedIs(fs, fs.disk.sec, d, at, ch, bytes);
      if sound {
        VolumeFacts(fs);
        OnLogical(fs);
        StaysUsable(fp, h, Touched(d, info));
        EntryOnlyIs(d, at, l, fs.Logical());
      }
    }
  }

  lemma StatusOnFat(obj: FfObj)
    requires !obj.fs.fsType.EXFAT?
    ensures OnVolumeStatus(obj) == ON_FAT
  {
  }

  lemma EntryPlace(fs: FatFs, d: nat, at: nat, u: seq<bool>, ch: seq<nat>)
    requires |u| == fs.nFatEnt && EntryFits(fs, d, at, u, ch)
    ensures d < fs.disk.size && !fs.InFat1(d) && !fs.InFat2(d) && at + 32 <= 512
  {
  }

  lemma NowParts(fp: Fil, h: Start)
    requires fp.obj.fs.Valid() && h == fp.Now().(ch := [])
    ensures h.u == Used(fp.obj.fs) && h.t == fp.obj.fs.Table() && h.l == fp.obj.fs.Logical()
  {
    hide Used, FatFs.Table, FatFs.Logical;
  }

  lemma InfoIs(fs: FatFs, d: nat, info: nat)
    requires InfoFits(fs, d, info)
    ensures info != 0 ==> fs.fsType.FAT32? && info < fs.fatBase && info != d
  {
  }

  lemma RecordedIs(fs: FatFs, l: seq<Sector>, d: nat, at: nat, ch: seq<nat>, bytes: seq<byte>)
    requires Laid(fs, l, ON_FAT, ch, bytes) && fs.Shape() && |l| == fs.disk.size
    requires EntryFits(fs, d, at, UsedOn(fs, l), ch) && d < |l| && at + 32 <= 512
    requires LdClust(fs.fsType, l[d], at) == (if ch == [] then 0 else ch[0]) && Dword(l[d], at + 28) == |bytes|
    ensures Recorded(fs, l, d, at, ch, bytes)
  {
    hide Laid, EntryFits, LdClust, Dword;
  }

  lemma CleanWindow(fs: FatFs)
    requires fs.Valid() && !fs.wFlag
    ensures fs.Logical() == fs.disk.sec
  {
  }

  lemma DiskWhole(fs: FatFs)
    requires fs.Valid()
    ensures |fs.disk.sec| == fs.disk.size
  {
  }

  lemma NowIs(fp: Fil)
    requires fp.obj.fs.Valid()
    ensures var g := fp.Now();
      && g.u == Used(fp.obj.fs) && g.ch == fp.obj.chain && g.l == fp.obj.fs.Logical() && g.t == fp.obj.fs.Table()
      && g.w == fp.obj.fs.winSect && |g.u| == fp.obj.fs.nFatEnt && g.free == fp.obj.fs.freeClst
      && (g.counted <==> !fp.obj.fs.fsType.EXFAT? && (g.free <= fp.obj.fs.nFatEnt - 2 ==>
            g.free == Unused(g.u, fp.obj.fs.nFatEnt)))
  {
  }

  lemma AfterSync(fp: Fil, g: Start, x: set<int>)
    requires fp.obj.fs.Valid() && fp.Since(g) && |g.u| == fp.obj.fs.nFatEnt
    ensures fp.obj.fs.Shape()
    ensures var h := fp.Now();
      && Leaves(fp.obj.fs, g, h.u, h.ch, h.l, h.t, h.w, x) && Leaves(fp.obj.fs, g, h.u, h.ch, h.l, h.t, h.w, {})
      && FreeKept(g, h) && Spared(g, h.u, h.ch)
      && h.u == Used(fp.obj.fs) && h.ch == fp.obj.chain && h.l == fp.obj.fs.Logical() && h.t == fp.obj.fs.Table()
      && h.w == fp.obj.fs.winSect
  {
    SinceLeaves(fp, g, x);
    SinceLeaves(fp, g, {});
  }

  lemma VisibleParts(fp: Fil)
    requires fp.Core()
    ensures Visible(fp) == Plain(fp.Content(), fp.fptr)
  {
    hide Fil.Core, Fil.Content;
  }

  /** The entry is still away from the file's clusters and from the free ones. */
  lemma FitsStill(fs: FatFs, g: Start, u: seq<bool>, ch: seq<nat>, d: nat, at: nat)
    requires |u| == |g.u| == fs.nFatEnt && Spared(g, u, ch) && EntryFits(fs, d, at, g.u, g.ch)
    ensures EntryFits(fs, d, at, u, ch)
  {
    StillAway(fs, g, u, ch, d);
  }

  lemma FreeKeptSame(g: Start, h: Start, k: Start)
    requires FreeKept(g, h) && k.free == h.free && (h.counted ==> k.counted)
    ensures FreeKept(g, k)
  {
  }

  /** The directory entry of a changed file, when its data is on the volume; g is the state before. */
  method RecordChanges(fp: Fil, d: nat, at: nat, tm: nat, info: nat, ghost g: Start)
    returns (res: FResult, sound: bool)
    requires fp.Usable() && !fp.dirty && !fp.obj.fs.fsType.EXFAT? && fp.obj.fs.Shape()
    requires EntryFits(fp.obj.fs, d, at, Used(fp.obj.fs), fp.obj.chain) && InfoFits(fp.obj.fs, d, info)
    requires var h := fp.Now(); Leaves(fp.obj.fs, g, h.u, h.ch, h.l, h.t, h.w, {}) && FreeKept(g, h)
    modifies fp`tracked, fp`modified
    modifies fp.obj.fs`wFlag, fp.obj.fs`winSect, fp.obj.fs`fsiFlag, fp.obj.fs.win
    modifies fp.obj.fs.disk`sec, fp.obj.fs.disk`script
    ensures |fp.obj.fs.disk.sec| == fp.obj.fs.disk.size && (res.OK? || res.DiskErr?)
    ensures res.OK? ==> !fp.modified
    ensures res.OK? ==> Recorded(fp.obj.fs, fp.obj.fs.disk.sec, d, at, fp.obj.chain, old(fp.Content()))
    ensures res.OK? ==>
              d < |fp.obj.fs.disk.sec|
              && EntrySays(fp.obj.fs.fsType, old(fp.obj.fs.Logical())[d], fp.obj.fs.disk.sec[d], at, fp.obj.sClust,
                   fp.obj.objSize, tm)
    ensures sound && res.OK? ==>
              InfoStored(info, old(fp.obj.fs.fsiFlag), fp.obj.fs.disk.sec, fp.obj.fs.freeClst, fp.obj.fs.lastClst)
    ensures (sound ==> fp.obj.fs.Valid()) && (!res.OK? ==> sound)
    ensures sound && res.OK? ==> !fp.obj.fs.wFlag && fp.Usable() && Visible(fp) == old(Visible(fp))
    ensures sound && res.OK? ==> var h := fp.Now();
      Leaves(fp.obj.fs, g, h.u, h.ch, h.l, h.t, h.w, Touched(d, info)) && FreeKept(g, h)
    ensures sound && res.OK? ==> EntryOnly(d, at, old(fp.obj.fs.Logical()), fp.obj.fs.Logical())
    ensures fp.tracked == old(fp.tracked && fp.Own())
    ensures old(fp.Quiet()) ==> res.OK? && sound && fp.Quiet()
  {
    hide *;
    fp.ReadyFacts();
    fp.CoreFacts();
    fp.QuietIs();
    VisibleParts(fp);
    NowIs(fp);
    ghost var fs, h := fp.obj.fs, fp.Now();
    EntryPlace(fs, d, at, Used(fs), fp.obj.chain);
    Forget(fp);
    fp.ReadyFacts();
    VisibleParts(fp);
    ghost var l, t, w := fs.Logical(), fs.Table(), fs.winSect;
    var found;
    res, found, sound := Record(fp, d, at, tm, info);
    fp.QuietIs();
    if res.OK? && sound {
      fp.ReadyFacts();
    }
    fp.modified := !found;
    if res.OK? && sound {
      fp.ReadyIs();
      NowIs(fp);
      FreeKeptSame(g, h, fp.Now());
      LeavesAside(fs, g, Used(fs), fp.obj.chain, l, t, w, Touched(d, info), fs.Logical(), fs.winSect);
    }
  }

  /** f_sync() on FAT12/16/32. */
  method SyncFat(fp: Fil, d: nat, at: nat, tm: nat, info: nat) returns (res: FResult, sound: bool)
    requires fp.Usable() && !fp.obj.fs.fsType.EXFAT?
    requires EntryFits(fp.obj.fs, d, at, Used(fp.obj.fs), fp.obj.chain) && InfoFits(fp.obj.fs, d, info)
    modifies fp`dirty, fp`tracked, fp`modified, fp.obj`stat, fp.obj`nFrag
    modifies fp.obj.fs`wFlag, fp.obj.fs`winSect, fp.obj.fs`fsiFlag, fp.obj.fs.win
    modifies fp.obj.fs.disk`sec, fp.obj.fs.disk`script
    ensures |fp.obj.fs.disk.sec| == fp.obj.fs.disk.size && fp.obj.fs.Shape() && (res.OK? || res.DiskErr?)
    ensures res.OK? ==> !fp.modified
    ensures res.OK? && old(fp.modified) ==>
              Recorded(fp.obj.fs, fp.obj.fs.disk.sec, d, at, fp.obj.chain, old(fp.Content()))
    ensures res.OK? && old(fp.modified) ==>
              d < |fp.obj.fs.disk.sec|
              && EntrySays(fp.obj.fs.fsType, old(fp.obj.fs.Logical())[d], fp.obj.fs.disk.sec[d], at, fp.obj.sClust,
                   fp.obj.objSize, tm)
    ensures sound && res.OK? && old(fp.modified) ==>
              InfoStored(info, old(fp.obj.fs.fsiFlag), fp.obj.fs.disk.sec, fp.obj.fs.freeClst, fp.obj.fs.lastClst)
    ensures (sound ==> fp.obj.fs.Valid()) && (!res.OK? || !old(fp.modified) ==> sound)
    ensures sound && res.OK? ==> EntryOnly(d, at, old(fp.obj.fs.Logical()), fp.obj.fs.Logical())
    ensures sound && res.OK? && !old(fp.modified) ==> fp.obj.fs.Logical()[d] == old(fp.obj.fs.Logical())[d]
    ensures sound && res.OK? && old(fp.modified) ==> !fp.obj.fs.wFlag
    ensures sound && res.OK? ==> fp.Usable() && Visible(fp) == old(Visible(fp))
    ensures sound && res.OK? ==> var g, h := old(fp.Now()), fp.Now();
      Leaves(fp.obj.fs, g, h.u, h.ch, h.l, h.t, h.w, Touched(d, info)) && FreeKept(g, h)
    ensures old(fp.tracked && fp.Own()) ==> fp.tracked
    ensures old(fp.Quiet()) ==> res.OK? && sound && fp.Quiet()
  {
    hide *;
    fp.ReadyFacts();
    fp.CoreFacts();
    fp.QuietIs();
    fp.ContentIs();
    ghost var fs, g := fp.obj.fs, fp.Now();
    VisibleParts(fp);
    NowIs(fp);
    DiskWhole(fs);
    sound := true;
    res := fp.SyncData();
    VolumeFacts(fs);
    DiskWhole(fs);
    fp.ReadyFacts();
    fp.CoreFacts();
    fp.QuietIs();
    AfterSync(fp, g, Touched(d, info));
    VisibleParts(fp);
    EntryOnlySince(fs, g, Used(fs), fp.obj.chain, fs.Logical(), fs.Table(), fs.winSect, d, at);
    if fp.modified && res.OK? {
      FitsStill(fs, g, Used(fs), fp.obj.chain, d, at);
      fp.OwnIs();
      res, sound := RecordChanges(fp, d, at, tm, info, g);
    }
  }

  /** f_open() of an existing file from its directory entry. */
  method OpenRecorded(fs: FatFs, d: nat, at: nat, reading: bool, writing: bool, ghost ch: seq<nat>,
    ghost bytes: seq<byte>) returns (res: FResult, fp: Fil?)
    requires fs.Valid() && !fs.fsType.EXFAT? && Recorded(fs, fs.Logical(), d, at, ch, bytes)
    modifies fs`wFlag, fs`winSect, fs.win, fs.disk`sec, fs.disk`script
    ensures fs.Valid() && (res.OK? || res.DiskErr?) && (res.OK? <==> fp != null)
    ensures fp != null ==>
              fresh(fp) && fresh(fp.obj) && fp.obj.fs == fs && fp.Ready() && fp.err.OK? && fp.fptr == 0
              && fp.Content() == bytes && fp.forReading == reading && fp.forWriting == writing
    ensures |old(fs.disk.script)| == 0 ==> res.OK? && |fs.disk.script| == 0
  {
    hide Sectors, FatCodes.Table, Bits, Owned, BytesOf, FatFs.Shape, OnDisk, FatFs.Logical, FatFs.Valid, Away, Holds,
      Fil.Core, Fil.Ready, Laid, UsedOn, LdClust, Dword, FatFs.Table, Used;
    ghost var l := fs.Logical();
    LaidFacts(fs, l, ON_FAT, ch, bytes);
    fp := null;
    res := fs.MoveWindow(d);
    if res.OK? {
      EntryApart(fs, d, at, UsedOn(fs, l), ch);
      LaidAside(fs, {d}, l, fs.Logical(), ON_FAT, ch, bytes);
      OnLogical(fs);
      assert fs.win[..] == fs.Logical()[d];
      var start, size := LdClust(fs.fsType, fs.win[..], at), Dword(fs.win[..], at + 28);
      fp := OpenLaid(fs, 0, start, size, reading, writing, ch, bytes);
    }
  }

  lemma EntryApart(fs: FatFs, d: nat, at: nat, u: seq<bool>, ch: seq<nat>)
    requires |u| == fs.nFatEnt && EntryFits(fs, d, at, u, ch)
    ensures Apartness(fs, {d}, u, ch)
  {
  }

  /** A mount of the device of fs. */
  method MountAgain(fs: FatFs) returns (b: FatFs)
    requires fs.Shape() && |fs.disk.sec| == fs.disk.size
    ensures fresh(b) && fresh(b.win) && b.disk == fs.disk && SameLayout(fs, b) && b.Valid()
    ensures b.Logical() == fs.disk.sec && b.winSect == INVALID && b.freeClst == INVALID
  {
    hide FatFs.SectorOf;
    b := new FatFs(fs.disk, fs.fsType, fs.nFats, fs.cSize, fs.nFatEnt, fs.fSize, fs.fatBase, fs.dataBase);
    SameShape(fs, b);
  }

  /** Durability: after f_sync() without error, a mount that knows nothing but what is on the device finds the
      file as it was. */
  method SyncedSurvives(fp: Fil, d: nat, at: nat, tm: nat, info: nat, reading: bool, writing: bool)
    returns (res: FResult, fq: Fil?)
    requires fp.Usable() && fp.modified && !fp.obj.fs.fsType.EXFAT?
    requires EntryFits(fp.obj.fs, d, at, Used(fp.obj.fs), fp.obj.chain) && InfoFits(fp.obj.fs, d, info)
    modifies fp`dirty, fp`tracked, fp`modified, fp.obj`stat, fp.obj`nFrag
    modifies fp.obj.fs`wFlag, fp.obj.fs`winSect, fp.obj.fs`fsiFlag, fp.obj.fs.win
    modifies fp.obj.fs.disk`sec, fp.obj.fs.disk`script
    ensures (res.OK? || res.DiskErr?) && (res.OK? <==> fq != null)
    ensures fq != null ==>
              fresh(fq.obj.fs) && fq.obj.fs.disk == fp.obj.fs.disk && SameLayout(fp.obj.fs, fq.obj.fs)
              && fq.Ready() && fq.Content() == old(fp.Content()) && fq.fptr == 0
    ensures old(fp.Quiet()) ==> res.OK?
  {
    hide Fil.Core, Fil.Ready, Recorded, FatFs.Valid, FatFs.Logical, FatFs.Shape, Used, Away;
    fp.ReadyFacts();
    fp.CoreFacts();
    ghost var bytes := fp.Content();
    fq := null;
    var sound;
    res, sound := SyncFat(fp, d, at, tm, info);
    if res.OK? {
      var b := MountAgain(fp.obj.fs);
      VolumeFacts(b);
      StillRecorded(fp.obj.fs, b, b.Logical(), d, at, fp.obj.chain, bytes);
      res, fq := OpenRecorded(b, d, at, reading, writing, fp.obj.chain, bytes);
    }
  }

  // ---------------------------------------------------------------- the same on exFAT

  /** stat | 1, as f_sync() stores it. */
  function Flags(stat: nat): (r: nat)
    ensures r % 2 == 1 && r / 2 == stat / 2
  {
    if stat % 2 == 1 then stat else stat + 1
  }

  lemma FlagsKeep(stat: nat)
    requires stat == 0 || stat == 2
    ensures Contiguous(Flags(stat)) == stat
  {
  }

  /** With one FAT, the window written back leaves the logical disk as it is. */
  lemma NoMirror(fs: FatFs, l: seq<Sector>)
    requires fs.Valid() && fs.fsType.EXFAT? && fs.SameButMirror(l, fs.Logical()) && !fs.wFlag
    ensures fs.disk.sec == fs.Logical() == l
  {
  }

  lemma StoredStatus(fs: FatFs, l: seq<Sector>, a: Alloc, ch: seq<nat>, bytes: seq<byte>)
    requires Laid(fs, l, a, ch, bytes) && fs.fsType.EXFAT? && a.stat != 3 && a.nCont == 0
    ensures Laid(fs, l, Alloc(Contiguous(Flags(a.stat)), 0, 0), ch, bytes)
  {
    hide Sectors, Owned, BytesOf, FatCodes.Table, Bits, OnFat, Distinct, Flags, Contiguous, OnDisk;
    if ch == [] {
      NoClusters(fs.cSize);
      SectorAt(fs, ch, 0);
    } else {
      FlagsKeep(a.stat);
    }
  }

  /** The part of f_sync() on exFAT that makes the file durable; the directory entry set, with flags, start and
      size, is the caller's. */
  method SyncExfat(fp: Fil) returns (res: FResult)
    requires fp.Usable() && fp.modified && fp.obj.fs.fsType.EXFAT?
    modifies fp`dirty, fp`tracked, fp.obj`stat, fp.obj`nFrag
    modifies fp.obj.fs`wFlag, fp.obj.fs`winSect, fp.obj.fs.win, fp.obj.fs.disk`sec, fp.obj.fs.disk`script
    ensures fp.obj.fs.Valid() && (res.OK? || res.DiskErr?)
    ensures res.OK? ==> !fp.obj.fs.wFlag && fp.obj.sClust == if fp.obj.chain == [] then 0 else fp.obj.chain[0]
    ensures res.OK? ==>
              fp.obj.objSize == |old(fp.Content())| &&
              Laid(fp.obj.fs, fp.obj.fs.disk.sec, Alloc(Contiguous(Flags(fp.obj.stat)), 0, 0), fp.obj.chain,
                old(fp.Content()))
    ensures old(fp.Quiet()) ==> res.OK? && fp.Quiet()
  {
    hide Sectors, FatCodes.Table, Bits, Owned, BytesOf, FatFs.Shape, OnDisk, FatFs.Logical, FatFs.Valid, Away, Holds,
      Fil.Core, Fil.Since, Fil.Positioned, Laid, UsedOn, FatFs.Table, Used, Flags, Contiguous;
    fp.ReadyFacts();
    fp.CoreFacts();
    ghost var fs, bytes := fp.obj.fs, fp.Content();
    res := fp.SyncData();
    if res.OK? {
      fp.ReadyFacts();
      fp.CoreFacts();
      LaidNow(fp);
      ghost var l := fs.Logical();
      StoredStatus(fs, l, OnVolumeStatus(fp.obj), fp.obj.chain, bytes);
      res := fp.obj.fs.SyncWindow();
      if res.OK? {
        NoMirror(fs, l);
      }
    }
  }

  /** Durability on exFAT: with flags, start and size as f_sync() stores them, a mount that knows nothing else but
      what is on the device finds the file as it was, contiguous or not. */
  method SyncedSurvivesExfat(fp: Fil, reading: bool, writing: bool) returns (res: FResult, fq: Fil?)
    requires fp.Usable() && fp.modified && fp.obj.fs.fsType.EXFAT?
    modifies fp`dirty, fp`tracked, fp.obj`stat, fp.obj`nFrag
    modifies fp.obj.fs`wFlag, fp.obj.fs`winSect, fp.obj.fs.win, fp.obj.fs.disk`sec, fp.obj.fs.disk`script
    ensures (res.OK? || res.DiskErr?) && (res.OK? <==> fq != null)
    ensures fq != null ==>
              fresh(fq.obj.fs) && fq.obj.fs.disk == fp.obj.fs.disk && SameLayout(fp.obj.fs, fq.obj.fs)
              && fq.Ready() && fq.Content() == old(fp.Content()) && fq.fptr == 0
    ensures old(fp.Quiet()) ==> res.OK?
  {
    hide Sectors, FatCodes.Table, Bits, Owned, BytesOf, FatFs.Shape, OnDisk, FatFs.Logical, FatFs.Valid, Away, Holds,
      Fil.Core, Fil.Ready, Laid, UsedOn, FatFs.Table, Used, Flags, Contiguous;
    fp.ReadyFacts();
    fp.CoreFacts();
    ghost var bytes := fp.Content();
    fq := null;
    res := SyncExfat(fp);
    if res.OK? {
      VolumeFacts(fp.obj.fs);
      DiskWhole(fp.obj.fs);
      var b := MountAgain(fp.obj.fs);
      VolumeFacts(b);
      ghost var a := Alloc(Contiguous(Flags(fp.obj.stat)), 0, 0);
      StillLaid(fp.obj.fs, b, b.Logical(), a, fp.obj.chain, bytes);
      LaidOwned(b, b.Logical(), a, fp.obj.chain, bytes);
      OnLogical(b);
      MetaAway(b, b.winSect, Used(b), fp.obj.chain);
      fq := OpenLaid(b, Flags(fp.obj.stat), fp.obj.sClust, fp.obj.objSize, reading, writing, fp.obj.chain, bytes);
    }
  }

  lemma LaidOwned(fs: FatFs, l: seq<Sector>, a: Alloc, ch: seq<nat>, bytes: seq<byte>)
    requires Laid(fs, l, a, ch, bytes)
    ensures fs.Shape() && |l| == fs.disk.size && InTable(fs.nFatEnt, ch) && Owned(fs, UsedOn(fs, l), ch)
  {
    hide Sectors, Owned, UsedOn, OnDisk, TableOn;
  }
}
