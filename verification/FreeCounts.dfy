/** Counting the free clusters of a volume (f_getfree). */
module FreeCounts {
  import opened Disks
  import opened FatCodes
  import opened Volumes
  import opened Bitmaps
  import opened Objects

  /** Number of zeros among the first n entries. */
  function Zeros(t: seq<nat>, n: nat): nat
    requires n <= |t|
  {
    if n == 0 then 0 else Zeros(t, n - 1) + if t[n - 1] == 0 then 1 else 0
  }

  /** Entries 0 and 1 are no clusters. */
  lemma {:induction false} ZerosAndUnused(t: seq<nat>, n: nat)
    requires 2 <= n <= |t|
    ensures Zeros(t, n) == Unused(UsedIn(t), n) + (if t[0] == 0 then 1 else 0) + (if t[1] == 0 then 1 else 0)
  {
    if n > 2 {
      ZerosAndUnused(t, n - 1);
    } else {
      assert Zeros(t, 1) == if t[0] == 0 then 1 else 0;
    }
  }

  /** FATs of five entries with one free cluster: with a zero in entry 0 or 1 the scan counts two. */
  lemma ReservedZeros()
    ensures var t := [0xFFF8, 0, 3, 0xFFFF, 0]; Zeros(t, 5) == 2 && Unused(UsedIn(t), 5) == 1
    ensures var t := [0, 0xFFFF, 3, 0xFFFF, 0]; Zeros(t, 5) == 2 && Unused(UsedIn(t), 5) == 1
  {
    ScanByHand(0xFFF8, 0);
    ScanByHand(0, 0xFFFF);
  }

  lemma ScanByHand(a: nat, b: nat)
    ensures var t := [a, b, 3, 0xFFFF, 0];
      Zeros(t, 5) == 1 + (if a == 0 then 1 else 0) + (if b == 0 then 1 else 0) && Unused(UsedIn(t), 5) == 1
  {
    var t := [a, b, 3, 0xFFFF, 0];
    OneMoreUnused(t, 4);
    OneMoreUnused(t, 3);
    OneMoreUnused(t, 2);
    NoneYet(t);
    ZerosAndUnused(t, 5);
  }

  lemma NoneYet(t: seq<nat>)
    requires 2 <= |t|
    ensures Unused(UsedIn(t), 2) == 0
  {
  }

  lemma OneMoreUnused(t: seq<nat>, c: nat)
    requires 2 <= c < |t|
    ensures Unused(UsedIn(t), c + 1) == Unused(UsedIn(t), c) + if t[c] == 0 then 1 else 0
  {
  }

  /** FAT12: look at every entry.  The entries before c were counted. */
  method ScanFat12(fs: FatFs) returns (res: FResult, nfree: nat, ghost c: nat)
    requires fs.Valid() && fs.fsType.FAT12?
    modifies fs`wFlag, fs`winSect, fs.win, fs.disk`sec, fs.disk`script
    ensures fs.Valid() && fs.Table() == old(fs.Table()) && fs.SameButMirror(old(fs.Logical()), fs.Logical())
    ensures 2 <= c <= fs.nFatEnt && nfree == Unused(UsedIn(fs.Table()), c) && (res.OK? <==> c == fs.nFatEnt)
    ensures res.OK? || res.DiskErr? || (res.IntErr? && fs.Table()[c] == 1)
    ensures fs.WindowAtFat(old(fs.winSect))
    ensures |old(fs.disk.script)| == 0 ==> !res.DiskErr? && |fs.disk.script| == 0
  {
    hide *;
    VolumeFacts(fs);
    ghost var l, w, q, t := fs.Logical(), fs.winSect, |fs.disk.script| == 0, fs.Table();
    LookedStart(fs, q);
    NoneYet(t);
    nfree, res, c := 0, OK, 2;
    var clst := 2;
    while true
      invariant Looked(fs, l, w, q) && fs.Valid() && fs.Table() == t
      invariant 2 <= clst < fs.nFatEnt && nfree == Unused(UsedIn(t), clst)
      decreases fs.nFatEnt - clst
    {
      LookedFacts(fs, l, w, q);
      ghost var m, v := fs.Logical(), fs.winSect;
      var stat := fs.GetFat(clst);
      LookedTwice(fs, l, w, q, m, v);
      LookedFacts(fs, l, w, q);
      OneMoreUnused(t, clst);
      if stat == INVALID {
        return DiskErr, nfree, clst;
      }
      if stat == 1 {
        return IntErr, nfree, clst;
      }
      if stat == 0 {
        nfree := nfree + 1;
      }
      clst := clst + 1;
      if clst >= fs.nFatEnt {
        return OK, nfree, clst;
      }
    }
  }

  /** Bytes to an entry. */
  function Width(t: FsType): nat {
    if t.FAT16? then 2 else 4
  }

  /** Where entry c stands. */
  function Spot(t: FsType, c: nat): nat {
    if t.FAT16? then 2 * c else 4 * c
  }

  /** Whether entry c, at byte k of the FAT, is zero; the window shows it. */
  method IsZero(fs: FatFs, k: nat, ghost c: nat) returns (zero: bool)
    requires fs.Valid() && (fs.fsType.FAT16? || fs.fsType.FAT32?) && c < fs.nFatEnt
    requires k == Spot(fs.fsType, c) && fs.winSect == fs.fatBase + k / 512
    ensures zero <==> fs.Table()[c] == 0
  {
    hide FatFs.Table, FatFs.FatArea, FatFs.Logical, FatFs.Valid, FatCodes.Word, FatCodes.Dword;
    EntryInArea(fs, c);
    if fs.fsType.FAT16? {
      var w := fs.PeekWord(k);
      zero := w == 0;
    } else {
      var w := fs.PeekDword(k);
      zero := w % 0x1000_0000 == 0;
    }
  }

  /** With a clean window elsewhere, moving it to the sector is one transfer, and that faults. */
  predicate FaultsAt(sect: nat, wFlag: bool, winSect: nat, script: seq<Outcome>) {
    !wFlag && winSect != sect && script != [] && script[0].Fault?
  }

  /** move_window() to the next sector of the FAT. */
  method NextSector(fs: FatFs, sect: nat) returns (res: FResult)
    requires fs.Valid() && fs.InFat1(sect)
    modifies fs`wFlag, fs`winSect, fs.win, fs.disk`sec, fs.disk`script
    ensures fs.Valid() && fs.Table() == old(fs.Table()) && fs.SameButMirror(old(fs.Logical()), fs.Logical())
    ensures res.OK? || res.DiskErr?
    ensures res.OK? ==> fs.winSect == sect
    ensures FaultsAt(sect, old(fs.wFlag), old(fs.winSect), old(fs.disk.script)) ==>
              res.DiskErr? && fs.disk.script == old(fs.disk.script)[1..]
    ensures fs.WindowAtFat(old(fs.winSect))
    ensures |old(fs.disk.script)| == 0 ==> res.OK? && |fs.disk.script| == 0
  {
    ghost var l := fs.Logical();
    res := fs.MoveWindow(sect);
    fs.MirrorApart(l, fs.Logical());
  }

  lemma Place(t: FsType, n: nat, c: nat, size: nat)
    requires c < n && Spot(t, n) <= size * 512
    ensures Spot(t, c) / 512 < size && (Spot(t, c) % 512 + Width(t)) % 512 == Spot(t, c + 1) % 512
    ensures Spot(t, c + 1) / 512 == Spot(t, c) / 512 + if Spot(t, c + 1) % 512 == 0 then 1 else 0
  {
    if t.FAT16? {
      Place16(n, c, size);
    } else {
      Place32(n, c, size);
    }
  }

  lemma Place16(n: nat, c: nat, size: nat)
    requires c < n && 2 * n <= size * 512
    ensures 2 * c / 512 < size && (2 * c % 512 + 2) % 512 == 2 * (c + 1) % 512
    ensures 2 * (c + 1) / 512 == 2 * c / 512 + if 2 * (c + 1) % 512 == 0 then 1 else 0
  {
  }

  lemma Place32(n: nat, c: nat, size: nat)
    requires c < n && 4 * n <= size * 512
    ensures 4 * c / 512 < size && (4 * c % 512 + 4) % 512 == 4 * (c + 1) % 512
    ensures 4 * (c + 1) / 512 == 4 * c / 512 + if 4 * (c + 1) % 512 == 0 then 1 else 0
  {
  }

  lemma MirrorSame(fs: FatFs, l: seq<Sector>)
    ensures fs.SameButMirror(l, l)
  {
  }

  lemma MirrorTwice(fs: FatFs, l: seq<Sector>, m: seq<Sector>, k: seq<Sector>)
    requires fs.SameButMirror(l, m) && fs.SameButMirror(m, k)
    ensures fs.SameButMirror(l, k)
  {
  }

  /** FAT16 and FAT32: look at the FAT sector by sector, entries 0 and 1 too.  The entries before c were counted. */
  method ScanFat(fs: FatFs) returns (res: FResult, nfree: nat, ghost c: nat)
    requires fs.Valid() && (fs.fsType.FAT16? || fs.fsType.FAT32?)
    modifies fs`wFlag, fs`winSect, fs.win, fs.disk`sec, fs.disk`script
    ensures fs.Valid() && fs.Table() == old(fs.Table()) && fs.SameButMirror(old(fs.Logical()), fs.Logical())
    ensures c <= fs.nFatEnt && nfree == Zeros(fs.Table(), c) && (res.OK? <==> c == fs.nFatEnt)
    ensures res.OK? || res.DiskErr?
    ensures FaultsAt(fs.fatBase, old(fs.wFlag), old(fs.winSect), old(fs.disk.script)) ==>
              res.DiskErr? && c == 0 && nfree == 0 && fs.disk.script == old(fs.disk.script)[1..]
    ensures fs.WindowAtFat(old(fs.winSect))
    ensures |old(fs.disk.script)| == 0 ==> res.OK? && |fs.disk.script| == 0
  {
    hide FatFs.Table, FatFs.Logical, FatFs.Valid, FatFs.Shape, FatFs.SameButMirror, Spot, Width;
    FatFits(fs);
    MirrorSame(fs, fs.Logical());
    ghost var t := fs.Table();
    nfree, res, c := 0, OK, 0;
    var clst, sect, i := fs.nFatEnt, fs.fatBase, 0;
    while true
      invariant fs.WindowAtFat(old(fs.winSect))
      invariant fs.Valid() && fs.Table() == t && fs.SameButMirror(old(fs.Logical()), fs.Logical())
      invariant c < fs.nFatEnt && clst == fs.nFatEnt - c && nfree == Zeros(t, c) && res.OK?
      invariant i == Spot(fs.fsType, c) % 512
      invariant sect == fs.fatBase + Spot(fs.fsType, c) / 512 + (if i == 0 then 0 else 1)
      invariant i != 0 ==> fs.winSect == fs.fatBase + Spot(fs.fsType, c) / 512
      invariant |old(fs.disk.script)| == 0 ==> |fs.disk.script| == 0
      invariant FaultsAt(fs.fatBase, old(fs.wFlag), old(fs.winSect), old(fs.disk.script)) ==>
                  && c == 0 && nfree == 0 && unchanged(fs.disk)
                  && fs.wFlag == old(fs.wFlag) && fs.winSect == old(fs.winSect)
      decreases clst
    {
      Place(fs.fsType, fs.nFatEnt, c, fs.fSize);
      if i == 0 {
        ghost var l := fs.Logical();
        res := NextSector(fs, sect);
        MirrorTwice(fs, old(fs.Logical()), l, fs.Logical());
        sect := sect + 1;
        if !res.OK? {
          return;
        }
      }
      var zero := IsZero(fs, (sect - 1 - fs.fatBase) * 512 + i, c);
      if zero {
        nfree := nfree + 1;
      }
      i := (i + Width(fs.fsType)) % 512;
      clst, c := clst - 1, c + 1;
      if clst == 0 {
        return;
      }
    }
  }

  lemma FatFits(fs: FatFs)
    requires fs.Valid()
    ensures fs.Shape() && 3 <= fs.nFatEnt <= 0x7FFF_FFFF && Spot(fs.fsType, 0) == 0
    ensures fs.fsType.FAT16? || fs.fsType.FAT32? ==> Spot(fs.fsType, fs.nFatEnt) <= fs.fSize * 512
  {
  }

  lemma EntryInArea(fs: FatFs, c: nat)
    requires fs.Valid() && c < fs.nFatEnt
    ensures fs.fsType.FAT16? ==> 2 * c + 1 < fs.fSize * 512 && fs.Table()[c] == Word(fs.FatArea(fs.Logical()), 2 * c)
    ensures fs.fsType.FAT32? ==>
              4 * c + 3 < fs.fSize * 512 && fs.Table()[c] == Dword(fs.FatArea(fs.Logical()), 4 * c) % 0x1000_0000
  {
    if fs.fsType.FAT16? {
      Table16(fs.FatArea(fs.Logical()), fs.nFatEnt, c);
    } else if fs.fsType.FAT32? {
      fs.TableOnDisk32(c);
    }
  }

  // ---------------------------------------------------------------- exFAT

  /** The low b bits of bm are those of x from bit n on. */
  ghost predicate Shifted(bm: nat, x: nat, n: nat, b: nat) {
    forall j | 0 <= j < b :: Bit(bm, j) == Bit(x, n + j)
  }

  lemma BitsShift(bm: nat, x: nat, n: nat, b: nat)
    requires Shifted(bm, x, n, b) && 0 < b
    ensures Shifted(bm / 2, x, n + 1, b - 1) && (bm % 2 == 0 <==> !Bit(x, n))
  {
    assert Bit(bm, 0) == Bit(x, n + 0);
    forall j | 0 <= j < b - 1
      ensures Bit(bm / 2, j) == Bit(x, n + 1 + j)
    {
      assert Bit(bm, j + 1) == Bit(x, n + (j + 1));
    }
  }

  lemma AllBits(x: nat)
    ensures Shifted(x, x, 0, 8)
  {
  }

  /** The bits of byte i of the sector in the window, from cluster number val + 2 on. */
  method ScanBits(fs: FatFs, i: nat, clst0: nat, nfree0: nat, ghost val: nat, ghost sec: nat)
    returns (clst: nat, nfree: nat)
    requires fs.Valid() && fs.fsType.EXFAT? && i < 512 && 0 < clst0 && val + clst0 == fs.nFatEnt - 2
    requires val == sec * 4096 + i * 8 && fs.winSect == fs.dataBase + sec < fs.disk.size
    requires fs.win[..] == fs.Logical()[fs.winSect] && nfree0 == Unused(Bits(fs, fs.Logical()), val + 2)
    ensures var val' := if val + 8 <= fs.nFatEnt - 2 then val + 8 else fs.nFatEnt - 2;
      clst + val' == fs.nFatEnt - 2 && nfree == Unused(Bits(fs, fs.Logical()), val' + 2)
  {
    hide FatFs.Logical, Bits, Bit, Shifted;
    AllBits(fs.win[i]);
    var b, bm: nat := 8, fs.win[i];
    clst, nfree := clst0, nfree0;
    ghost var n := 0;
    while b > 0 && clst > 0
      invariant n + b == 8 && clst == clst0 - n && 0 <= clst
      invariant nfree == Unused(Bits(fs, fs.Logical()), val + n + 2)
      invariant Shifted(bm, fs.win[i], n, b)
    {
      BitHere(fs, val + n, sec, i, n);
      BitsShift(bm, fs.win[i], n, b);
      if bm % 2 == 0 {
        nfree := nfree + 1;
      }
      bm := bm / 2;
      b, clst, n := b - 1, clst - 1, n + 1;
    }
  }

  /** Sector of the bitmap, and byte in it, where the bit of cluster number val + 2 stands. */
  function BitSector(val: nat): nat {
    val / 4096
  }

  function BitByte(val: nat): nat {
    val / 8 % 512
  }

  lemma NextByte(val: nat)
    requires val % 8 == 0
    ensures BitByte(val) < 512 && val == BitSector(val) * 4096 + BitByte(val) * 8
    ensures BitByte(val + 8) == (BitByte(val) + 1) % 512
    ensures BitSector(val + 8) == BitSector(val) + if BitByte(val + 8) == 0 then 1 else 0
  {
  }

  lemma NoneSeen(u: seq<bool>)
    requires 2 <= |u|
    ensures Unused(u, 2) == 0
  {
  }

  /** The window at the byte of cluster number val + 2: before the first byte of a sector it is moved to that
      sector of the bitmap, which is `sect`. */
  method ShowNext(fs: FatFs, i: nat, sect: nat, ghost val: nat) returns (res: FResult, sect': nat)
    requires fs.Valid() && fs.fsType.EXFAT? && val < fs.nFatEnt - 2 && val % 8 == 0 && i == BitByte(val)
    requires sect == fs.dataBase + BitSector(val) + if i == 0 then 0 else 1
    requires i != 0 ==> fs.winSect == sect - 1 < fs.disk.size && fs.win[..] == fs.Logical()[fs.winSect]
    modifies fs`wFlag, fs`winSect, fs.win, fs.disk`sec, fs.disk`script
    ensures fs.Valid() && fs.Logical() == old(fs.Logical())
    ensures res.OK? || res.DiskErr?
    ensures sect' == fs.dataBase + BitSector(val) + 1
    ensures res.OK? ==> fs.winSect == sect' - 1 < fs.disk.size && fs.win[..] == fs.Logical()[fs.winSect]
    ensures WindowAtBitmap(fs, old(fs.winSect))
    ensures |old(fs.disk.script)| == 0 ==> res.OK? && |fs.disk.script| == 0
  {
    hide FatFs.Logical, FatFs.Valid, FatFs.Shape;
    res, sect' := OK, sect;
    if i == 0 {
      assert val == BitSector(val) * 4096;
      res := ShowBitmap(fs, (sect - fs.dataBase) * 4096);
      sect' := sect + 1;
    }
  }

  /** exFAT: look at the bitmap.  The clusters before c were counted. */
  method ScanBitmap(fs: FatFs) returns (res: FResult, nfree: nat, ghost c: nat)
    requires fs.Valid() && fs.fsType.EXFAT?
    modifies fs`wFlag, fs`winSect, fs.win, fs.disk`sec, fs.disk`script
    ensures fs.Valid() && fs.Logical() == old(fs.Logical())
    ensures 2 <= c <= fs.nFatEnt && nfree == Unused(Bits(fs, fs.Logical()), c) && (res.OK? <==> c == fs.nFatEnt)
    ensures res.OK? || res.DiskErr?
    ensures WindowAtBitmap(fs, old(fs.winSect))
    ensures |old(fs.disk.script)| == 0 ==> res.OK? && |fs.disk.script| == 0
  {
    hide FatFs.Logical, FatFs.Valid, FatFs.Shape, Bits, BitByte, BitSector, Unused;
    FatFits(fs);
    NoneSeen(Bits(fs, fs.Logical()));
    assert BitByte(0) == 0 && BitSector(0) == 0 by {
      NextByte(0);
    }
    nfree, res, c := 0, OK, 2;
    var clst: nat, sect, i := fs.nFatEnt - 2, fs.dataBase, 0;
    ghost var val := 0;
    while true
      invariant WindowAtBitmap(fs, old(fs.winSect))
      invariant fs.Valid() && fs.Logical() == old(fs.Logical()) && res.OK?
      invariant 0 <= val && 0 < clst && val + clst == fs.nFatEnt - 2 && c == val + 2
      invariant nfree == Unused(Bits(fs, fs.Logical()), c)
      invariant val % 8 == 0 && i == BitByte(val) && sect == fs.dataBase + BitSector(val) + (if i == 0 then 0 else 1)
      invariant i != 0 ==> fs.winSect == sect - 1 < fs.disk.size && fs.win[..] == fs.Logical()[fs.winSect]
      invariant |old(fs.disk.script)| == 0 ==> |fs.disk.script| == 0
      decreases clst
    {
      NextByte(val);
      res, sect := ShowNext(fs, i, sect, val);
      if !res.OK? {
        return;
      }
      clst, nfree := ScanBits(fs, i, clst, nfree, val, BitSector(val));
      val := if val + 8 <= fs.nFatEnt - 2 then val + 8 else fs.nFatEnt - 2;
      c := val + 2;
      if clst == 0 {
        return;
      }
      i := (i + 1) % 512;
    }
  }

  // ---------------------------------------------------------------- f_getfree()

  /** Number of free clusters from number c on. */
  ghost function FreeFrom(u: seq<bool>, c: nat): nat
    decreases |u| - c
  {
    if c >= |u| then 0 else FreeFrom(u, c + 1) + if c >= 2 && !u[c] then 1 else 0
  }

  lemma {:induction false} UnusedParts(u: seq<bool>, c: nat)
    requires c <= |u|
    ensures Unused(u, |u|) == Unused(u, c) + FreeFrom(u, c)
    decreases |u| - c
  {
    if c < |u| {
      UnusedParts(u, c + 1);
    }
  }

  /** Number of zeros among entries 0 and 1, as far as they lie before c. */
  function Low(t: seq<nat>, c: nat): nat
    requires c <= |t|
  {
    (if c > 0 && t[0] == 0 then 1 else 0) + if c > 1 && t[1] == 0 then 1 else 0
  }

  /** What the scan counts before c beyond what it should: zeros that are no clusters. */
  ghost function Excess(fs: FatFs, c: nat): nat
    requires fs.Valid() && c <= fs.nFatEnt
    reads fs`wFlag, fs`winSect, fs.win, fs.disk`sec
  {
    if fs.fsType.FAT12? || fs.fsType.EXFAT? then 0 else Low(fs.Table(), c)
  }

  lemma {:induction false} LowAndUnused(t: seq<nat>, c: nat)
    requires c <= |t|
    ensures Zeros(t, c) == Unused(UsedIn(t), c) + Low(t, c)
  {
    if c > 0 {
      LowAndUnused(t, c - 1);
    }
  }

  /** A scan that is not broken off is right just when entries 0 and 1 are not zero (FAT12 and exFAT: always). */
  lemma WholeScan(fs: FatFs)
    requires fs.Valid()
    ensures Excess(fs, fs.nFatEnt) == FreeFrom(Used(fs), fs.nFatEnt)
       <==> fs.fsType.FAT12? || fs.fsType.EXFAT? || (fs.Table()[0] != 0 && fs.Table()[1] != 0)
  {
    hide FatFs.Table, FatFs.Logical, Bits;
  }

  /** f_getfree(): the free count if it is valid, otherwise a scan, whose result becomes the free count even
      if it was broken off.  The scan counted the clusters before c. */
  method GetFree(fs: FatFs) returns (res: FResult, nclst: nat, ghost c: nat)
    requires fs.Valid()
    modifies fs`freeClst, fs`fsiFlag, fs`wFlag, fs`winSect, fs.win, fs.disk`sec, fs.disk`script
    ensures fs.Valid() && fs.Table() == old(fs.Table()) && Used(fs) == old(Used(fs))
    ensures res.OK? || res.DiskErr? || (res.IntErr? && exists e | 2 <= e < fs.nFatEnt :: fs.Table()[e] == 1)
    ensures nclst == fs.freeClst
    ensures old(fs.freeClst) <= fs.nFatEnt - 2 ==> res.OK? && nclst == old(fs.freeClst)
    ensures old(fs.freeClst) > fs.nFatEnt - 2 ==> c <= fs.nFatEnt && (res.OK? <==> c == fs.nFatEnt)
    ensures old(fs.freeClst) > fs.nFatEnt - 2 ==> nclst == Unused(Used(fs), c) + Excess(fs, c)
    ensures old(fs.freeClst) > fs.nFatEnt - 2 ==>
              (nclst == Unused(Used(fs), fs.nFatEnt) <==> Excess(fs, c) == FreeFrom(Used(fs), c))
    ensures res.OK? && old(fs.freeClst) > fs.nFatEnt - 2 ==>
              (nclst == Unused(Used(fs), fs.nFatEnt) <==>
               fs.fsType.FAT12? || fs.fsType.EXFAT? || (fs.Table()[0] != 0 && fs.Table()[1] != 0))
    ensures old(fs.freeClst) > fs.nFatEnt - 2 ==>
              (CountOk(fs) <==> nclst > fs.nFatEnt - 2 || Excess(fs, c) == FreeFrom(Used(fs), c))
    ensures old(fs.freeClst) > fs.nFatEnt - 2 && (fs.fsType.FAT16? || fs.fsType.FAT32?)
            && FaultsAt(fs.fatBase, old(fs.wFlag), old(fs.winSect), old(fs.disk.script)) ==>
              res.DiskErr? && nclst == 0 && fs.disk.script == old(fs.disk.script)[1..]
    ensures WindowAtMeta(fs, old(fs.winSect))
    ensures |old(fs.disk.script)| == 0 ==> !res.DiskErr?
  {
    hide FatFs.Table, FatFs.Logical, FatFs.Valid, FatFs.Shape, Bits, Unused, Zeros, FreeFrom, Low, UsedIn;
    VolumeFacts(fs);
    ghost var l := fs.Logical();
    res, c := OK, 0;
    if fs.freeClst <= fs.nFatEnt - 2 {
      return res, fs.freeClst, c;
    }
    SameTable(fs, l);
    if fs.fsType.FAT12? {
      res, nclst, c := ScanFat12(fs);
    } else if fs.fsType.EXFAT? {
      res, nclst, c := ScanBitmap(fs);
    } else {
      res, nclst, c := ScanFat(fs);
      LowAndUnused(fs.Table(), c);
    }
    SameTable(fs, fs.Logical());
    UnusedParts(Used(fs), c);
    WholeScan(fs);
    fs.freeClst := nclst;
    fs.fsiFlag := true;
  }

  lemma SameTable(fs: FatFs, l: seq<Sector>)
    requires fs.Valid() && fs.Logical() == l
    ensures fs.Table() == FatCodes.Table(fs.fsType, fs.FatArea(l), fs.nFatEnt)
  {
  }
}
