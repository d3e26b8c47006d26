/** The mounted volume (FATFS): its one-sector write-back window on the disk, and the coding of FAT
    entries through that window. */
module Volumes {
  import opened Disks
  import opened FatCodes

  datatype FResult = OK | DiskErr | IntErr | Denied | NotEnoughCore

  const INVALID: nat := 0xFFFF_FFFF
  const MAX_FAT12: nat := 0xFF5
  const MAX_FAT16: nat := 0xFFF5
  const MAX_FAT32: nat := 0x0FFF_FFF5
  const MAX_EXFAT: nat := 0x7FFF_FFFD

  /** Subtraction of 32-bit words, with wrap-around. */
  function Sub32(a: int, b: int): nat {
    (a - b) % 0x1_0000_0000
  }

  /** Division, as a function of its own: by a number that is no constant. */
  function Quot(a: nat, b: nat): nat
    requires 0 < b
  {
    a / b
  }

  /** An aligned word does not cross a sector border. */
  lemma SameSector(i: nat, k: nat)
    requires (i % 4 == 0 && k < 4) || (i % 2 == 0 && k < 2)
    ensures (i + k) / 512 == i / 512 && (i + k) % 512 == i % 512 + k
  {
  }

  lemma Even(h: nat)
    ensures 2 * h % 2 == 0
  {
  }

  lemma EvenHalves(i: nat)
    requires i % 4 == 0
    ensures i % 2 == 0 && (i + 2) % 2 == 0
  {
    var q := i / 4;
    Even(2 * q);
    Even(2 * q + 1);
    assert i == 2 * (2 * q) && i + 2 == 2 * (2 * q + 1);
  }

  class FatFs {
    const disk: Disk
    // Fixed when the volume is mounted.
    const fsType: FsType
    const nFats: nat       // number of FATs, 1 or 2
    const cSize: nat       // cluster size in sectors
    const nFatEnt: nat     // number of FAT entries: number of clusters + 2
    const fSize: nat       // size of one FAT in sectors
    const fatBase: nat
    const dataBase: nat
    // The access window.
    const win: array<byte>
    var wFlag: bool
    var winSect: nat
    // Allocation hints.
    var lastClst: nat
    var freeClst: nat
    var fsiFlag: bool

    ghost function MaxClusters(): nat {
      match fsType
      case FAT12 => MAX_FAT12
      case FAT16 => MAX_FAT16
      case FAT32 => MAX_FAT32
      case EXFAT => MAX_EXFAT
    }

    /** The layout that all operations rely on.  find_volume() does not check all of it: on FAT12/16/32 neither that
        the size of the system area fits 32 bits nor that the clusters end on the device, on exFAT also neither the
        size of the FAT, nor its place before the data area, nor that there is a cluster at all. */
    ghost predicate Shape() {
      && win.Length == 512
      && (nFats == 1 || nFats == 2)
      && (fsType.EXFAT? ==> nFats == 1)
      && 1 <= cSize
      && 3 <= nFatEnt <= MaxClusters() + 2
      && Bytes(fsType, nFatEnt) <= fSize * 512
      && fatBase + fSize + (if nFats == 2 then fSize else 0) <= dataBase
      && SectorOf(nFatEnt) <= disk.size < INVALID
    }

    /** First sector of a cluster: clusters 2, 3, .. lie back to back from dataBase. */
    ghost function SectorOf(c: nat): (s: nat)
      ensures dataBase <= s
    {
      if c <= 2 then dataBase else SectorOf(c - 1) + cSize
    }

    lemma SizesFit()
      requires Shape()
      ensures nFatEnt <= 0x7FFF_FFFF && 1 <= cSize
    {
    }

    ghost predicate InFat1(s: int) {
      fatBase <= s < fatBase + fSize
    }

    ghost predicate InFat2(s: int) {
      nFats == 2 && fatBase + fSize <= s < fatBase + 2 * fSize
    }

    ghost predicate Valid()
      reads this`wFlag, this`winSect, win, disk`sec
    {
      && Shape()
      && |disk.sec| == disk.size
      && (winSect < disk.size || winSect == INVALID)
      && (wFlag ==> winSect < disk.size && !InFat2(winSect))
      && (!wFlag && winSect < disk.size ==> win[..] == disk.sec[winSect])
    }

    /** The disk as the rest of the module sees it: the sectors overlaid by the dirty window. */
    ghost function Logical(): (l: seq<Sector>)
      requires Valid()
      reads this`wFlag, this`winSect, win, disk`sec
      ensures |l| == disk.size
    {
      if wFlag then disk.sec[winSect := win[..]] else disk.sec
    }

    /** Equal except in the second copy of the FAT. */
    ghost predicate SameButMirror(l: seq<Sector>, m: seq<Sector>) {
      |l| == |m| && forall s | 0 <= s < |l| && !InFat2(s) :: l[s] == m[s]
    }

    /** Every sector of the first FAT that is not waiting in the window equals its mirror. */
    ghost predicate MirrorOk()
      requires Valid()
      reads this`wFlag, this`winSect, win, disk`sec
    {
      nFats == 2 ==> forall s | InFat1(s) && !(wFlag && s == winSect) :: disk.sec[s] == disk.sec[s + fSize]
    }

    /** Writing the window back would reflect it to the second FAT, and that transfer faults. */
    ghost predicate MirrorFaults()
      reads this`wFlag, this`winSect, disk`script
    {
      wFlag && nFats == 2 && InFat1(winSect) && |disk.script| >= 2 && disk.script[0].Pass? && disk.script[1].Fault?
    }

    /** Number of transfers that writing the window back takes, if the first of them succeeds. */
    ghost function WriteBacks(): nat
      reads this`wFlag, this`winSect
    {
      if !wFlag then 0 else if nFats == 2 && InFat1(winSect) then 2 else 1
    }

    /** Number of transfers of a move of the window that succeeds. */
    ghost function Transfers(sector: nat): nat
      reads this`wFlag, this`winSect
    {
      if sector == winSect then 0 else WriteBacks() + 1
    }

    /** To put a FAT12 entry that begins with byte bc and ends in the next sector, the window is moved twice; the
        second time the transfer to the second FAT faults. */
    ghost predicate SecondFaults(bc: nat)
      reads this`wFlag, this`winSect, disk`script
    {
      (bc + 1) / 512 != bc / 512 && nFats == 2
      && var rest := Dropped(disk.script, Transfers(fatBase + bc / 512));
        |rest| >= 2 && rest[0].Pass? && rest[1].Fault?
    }

    constructor (d: Disk, t: FsType, fats: nat, csz: nat, nent: nat, fsz: nat, fbase: nat, dbase: nat)
      requires |d.sec| == d.size < INVALID
      ensures disk == d && fsType == t && nFats == fats && cSize == csz && nFatEnt == nent
      ensures fSize == fsz && fatBase == fbase && dataBase == dbase
      ensures fresh(win) && win.Length == 512
      ensures !wFlag && winSect == lastClst == freeClst == INVALID
      ensures Shape() ==> Valid() && Logical() == d.sec
    {
      disk, fsType, nFats, cSize, nFatEnt := d, t, fats, csz, nent;
      fSize, fatBase, dataBase := fsz, fbase, dbase;
      win := new byte[512];
      wFlag, winSect, lastClst, freeClst, fsiFlag := false, INVALID, INVALID, INVALID, false;
    }

    /** sync_window(): write a dirty window back, and reflect a FAT sector to the second FAT. */
    method SyncWindow() returns (res: FResult)
      requires Valid()
      modifies this`wFlag, disk`sec, disk`script
      ensures Valid() && SameButMirror(old(Logical()), Logical())
      ensures res.OK? || res.DiskErr?
      ensures res.OK? ==> !wFlag
      ensures !res.OK? ==> wFlag
      ensures !old(wFlag) ==> res.OK? && disk.script == old(disk.script)
      ensures |old(disk.script)| == 0 ==> res.OK? && |disk.script| == 0
      ensures old(MirrorOk()) && !old(MirrorFaults()) ==> MirrorOk()
      ensures res.OK? ==> disk.script == Dropped(old(disk.script), old(WriteBacks()))
    {
      hide FatFs.SectorOf, FatFs.MaxClusters;
      res := OK;
      if wFlag {
        var ok := disk.Write(win[..], winSect, 1);
        if ok {
          wFlag := false;
          if Sub32(winSect, fatBase) < fSize {
            Reflect();
          }
        } else {
          res := DiskErr;
        }
      }
    }

    /** Reflect the FAT sector in the window to the second FAT, if there is one. */
    method Reflect()
      requires Valid() && !wFlag && InFat1(winSect)
      modifies disk`sec, disk`script
      ensures Valid() && SameButMirror(old(disk.sec), disk.sec)
      ensures nFats == 2 ==> forall s | InFat2(s) && s != winSect + fSize :: disk.sec[s] == old(disk.sec)[s]
      ensures |old(disk.script)| == 0 ==> |disk.script| == 0
      ensures (|old(disk.script)| == 0 || old(disk.script)[0].Pass?) && nFats == 2 ==>
                disk.sec[winSect] == disk.sec[winSect + fSize]
      ensures disk.script == Dropped(old(disk.script), if nFats == 2 then 1 else 0)
    {
      if nFats == 2 {
        var _ := disk.Write(win[..], winSect + fSize, 1);
      }
    }

    /** move_window(): make `sector` appear in the window. */
    method MoveWindow(sector: nat) returns (res: FResult)
      requires Valid() && sector < INVALID
      modifies this`wFlag, this`winSect, win, disk`sec, disk`script
      ensures Valid() && SameButMirror(old(Logical()), Logical())
      ensures res.OK? || res.DiskErr?
      ensures res.OK? ==> winSect == sector < disk.size && win[..] == Logical()[sector]
      ensures !res.OK? ==> winSect == INVALID || winSect == old(winSect)
      ensures !old(wFlag) && sector != old(winSect) && |old(disk.script)| != 0 ==>
                disk.script == old(disk.script)[1..]
                && (res.OK? <==> old(disk.script)[0].Pass? && sector < disk.size)
      ensures |old(disk.script)| == 0 ==> |disk.script| == 0 && (res.OK? <==> sector < disk.size)
      ensures old(MirrorOk()) && (sector == old(winSect) || !old(MirrorFaults())) ==> MirrorOk()
      ensures res.OK? ==> disk.script == Dropped(old(disk.script), old(Transfers(sector)))
      ensures if sector == old(winSect) then wFlag == old(wFlag) else res.OK? ==> !wFlag
    {
      hide FatFs.SectorOf, FatFs.MaxClusters, FatFs.WriteBacks, FatFs.InFat2;
      res := OK;
      if sector != winSect {
        res := SyncWindow();
        if res.OK? {
          var ok := disk.Read(win, 0, sector, 1);
          if ok {
            winSect := sector;
          } else {
            winSect := INVALID;
            res := DiskErr;
          }
        }
      }
    }

    /** The bytes of the first FAT on the disk l. */
    ghost function FatArea(l: seq<Sector>): (a: seq<byte>)
      requires Shape() && |l| == disk.size
      ensures |a| == fSize * 512
    {
      seq(fSize * 512, i requires 0 <= i < fSize * 512 => l[fatBase + i / 512][i % 512])
    }

    /** The value of every FAT entry. */
    ghost function Table(): (t: seq<nat>)
      requires Valid()
      reads this`wFlag, this`winSect, win, disk`sec
      ensures |t| == nFatEnt
    {
      FatCodes.Table(fsType, FatArea(Logical()), nFatEnt)
    }

    /** Equal in every sector that belongs to no FAT. */
    ghost predicate SameOutsideFat(l: seq<Sector>, m: seq<Sector>) {
      |l| == |m| && forall s | 0 <= s < |l| && !InFat1(s) && !InFat2(s) :: l[s] == m[s]
    }

    lemma OutsideTwice(l: seq<Sector>, m: seq<Sector>, k: seq<Sector>)
      requires SameOutsideFat(l, m) && SameOutsideFat(m, k)
      ensures SameOutsideFat(l, k)
    {
    }

    lemma MirrorApart(l: seq<Sector>, m: seq<Sector>)
      requires Shape() && |l| == disk.size && SameButMirror(l, m)
      ensures FatArea(l) == FatArea(m) && SameOutsideFat(l, m)
    {
    }

    /** Where the window may be after looking at the FAT. */
    ghost predicate WindowAtFat(was: nat)
      reads this`winSect
    {
      winSect == was || winSect == INVALID || InFat1(winSect)
    }

    /** Store one byte of the FAT in the window that shows it, and mark the window dirty. */
    method PokeFat(i: nat, v: byte)
      requires Valid() && i < fSize * 512 && winSect == fatBase + i / 512
      modifies this`wFlag, win
      ensures Valid() && wFlag
      ensures FatArea(Logical()) == old(FatArea(Logical()))[i := v]
      ensures SameOutsideFat(old(Logical()), Logical())
      ensures old(MirrorOk()) ==> MirrorOk()
    {
      win[i % 512] := v;
      wFlag := true;
    }

    /** Move the window to the sector that holds byte i of the FAT. */
    method ShowFat(i: nat) returns (res: FResult)
      requires Valid() && i < fSize * 512
      modifies this`wFlag, this`winSect, win, disk`sec, disk`script
      ensures Valid() && SameButMirror(old(Logical()), Logical())
      ensures SameOutsideFat(old(Logical()), Logical())
      ensures FatArea(Logical()) == old(FatArea(Logical()))
      ensures res.OK? || res.DiskErr?
      ensures res.OK? ==> winSect == fatBase + i / 512
      ensures res.OK? ==> forall j | 0 <= j < fSize * 512 && j / 512 == i / 512 :: win[j % 512] == FatArea(Logical())[j]
      ensures WindowAtFat(old(winSect))
      ensures |old(disk.script)| == 0 ==> |disk.script| == 0 && res.OK?
      ensures old(MirrorOk()) && (!old(MirrorFaults()) || old(winSect) == fatBase + i / 512) ==> MirrorOk()
      ensures res.OK? && !old(MirrorFaults()) ==> !MirrorFaults()
      ensures res.OK? ==> disk.script == Dropped(old(disk.script), old(Transfers(fatBase + i / 512)))
    {
      ghost var was := Logical();
      res := MoveWindow(fatBase + i / 512);
      MirrorApart(was, Logical());
    }

    /** get_fat(), as far as it reads the disk. */
    method GetFat(clst: nat) returns (val: nat)
      requires Valid()
      modifies this`wFlag, this`winSect, win, disk`sec, disk`script
      ensures Valid() && SameButMirror(old(Logical()), Logical())
      ensures Table() == old(Table())
      ensures WindowAtFat(old(winSect))
      ensures !(2 <= clst < nFatEnt) ==> val == 1
      ensures 2 <= clst < nFatEnt ==> val == INVALID || val == Table()[clst]
      ensures |old(disk.script)| == 0 ==> |disk.script| == 0 && val != INVALID
      ensures old(MirrorOk()) && !old(MirrorFaults()) ==> MirrorOk()
    {
      if clst < 2 || clst >= nFatEnt {
        return 1;
      }
      match fsType
      case FAT12 => val := GetFat12(clst);
      case FAT16 => val := GetFat16(clst);
      case _ => val := GetFat32(clst);
    }

    method GetFat12(clst: nat) returns (val: nat)
      requires Valid() && fsType.FAT12? && 2 <= clst < nFatEnt
      modifies this`wFlag, this`winSect, win, disk`sec, disk`script
      ensures Valid() && SameButMirror(old(Logical()), Logical())
      ensures Table() == old(Table())
      ensures WindowAtFat(old(winSect))
      ensures val == INVALID || val == Table()[clst]
      ensures |old(disk.script)| == 0 ==> |disk.script| == 0 && val != INVALID
      ensures old(MirrorOk()) && !old(MirrorFaults()) ==> MirrorOk()
    {
      Table12(FatArea(Logical()), nFatEnt, clst);
      var res, wc := Read12(clst + clst / 2);
      val := if res.OK? then Unpack12(clst % 2 == 1, wc) else INVALID;
    }

    /** Merge the two bytes at bc, from one window position or from two. */
    method Read12(bc: nat) returns (res: FResult, wc: nat)
      requires Valid() && bc + 1 < fSize * 512
      modifies this`wFlag, this`winSect, win, disk`sec, disk`script
      ensures Valid() && SameButMirror(old(Logical()), Logical())
      ensures FatArea(Logical()) == old(FatArea(Logical()))
      ensures WindowAtFat(old(winSect))
      ensures res.OK? ==> wc == Word(FatArea(Logical()), bc)
      ensures |old(disk.script)| == 0 ==> |disk.script| == 0 && res.OK?
      ensures old(MirrorOk()) && !old(MirrorFaults()) ==> MirrorOk()
    {
      hide FatFs.FatArea, FatFs.Logical, FatFs.MirrorOk, FatCodes.Bytes;
      wc := 0;
      res := ShowFat(bc);
      if res.OK? {
        var lo := win[bc % 512];
        res := ShowFat(bc + 1);
        if res.OK? {
          wc := Pair(lo, win[(bc + 1) % 512]);
        }
      }
    }

    method GetFat16(clst: nat) returns (val: nat)
      requires Valid() && fsType.FAT16? && 2 <= clst < nFatEnt
      modifies this`wFlag, this`winSect, win, disk`sec, disk`script
      ensures Valid() && SameButMirror(old(Logical()), Logical())
      ensures Table() == old(Table())
      ensures WindowAtFat(old(winSect))
      ensures val == INVALID || val == Table()[clst]
      ensures |old(disk.script)| == 0 ==> |disk.script| == 0 && val != INVALID
      ensures old(MirrorOk()) && !old(MirrorFaults()) ==> MirrorOk()
    {
      hide FatCodes.EntriesFrom, FatCodes.Bytes, FatCodes.Word;
      TableOnDisk16(clst);
      var res, w := ReadWord(2 * clst);
      val := if res.OK? then w else INVALID;
    }

    lemma TableFits()
      requires Valid()
      ensures |FatArea(Logical())| == fSize * 512 && Bytes(fsType, nFatEnt) <= |FatArea(Logical())|
      ensures fsType.FAT32? || fsType.EXFAT? ==> 4 * nFatEnt <= fSize * 512
    {
    }

    lemma Width16(c: nat)
      requires Valid() && fsType.FAT16? && c < nFatEnt
      ensures Shape() && 2 * c + 1 < fSize * 512 && 2 * c % 2 == 0
    {
    }

    lemma TableOnDisk16(c: nat)
      requires Valid() && fsType.FAT16? && c < nFatEnt
      ensures 2 * c + 1 < fSize * 512 && Table()[c] == Word(FatArea(Logical()), 2 * c)
    {
      Table16(FatArea(Logical()), nFatEnt, c);
    }

    lemma TableOnDisk32(c: nat)
      requires Valid() && (fsType.FAT32? || fsType.EXFAT?) && c < nFatEnt
      ensures 4 * c + 3 < fSize * 512 && Table()[c] == Mask(fsType, Dword(FatArea(Logical()), 4 * c))
    {
      Table32(fsType, FatArea(Logical()), nFatEnt, c);
    }

    method GetFat32(clst: nat) returns (val: nat)
      requires Valid() && (fsType.FAT32? || fsType.EXFAT?) && 2 <= clst < nFatEnt
      modifies this`wFlag, this`winSect, win, disk`sec, disk`script
      ensures Valid() && SameButMirror(old(Logical()), Logical())
      ensures Table() == old(Table())
      ensures WindowAtFat(old(winSect))
      ensures val == INVALID || val == Table()[clst]
      ensures |old(disk.script)| == 0 ==> |disk.script| == 0 && val != INVALID
      ensures old(MirrorOk()) && !old(MirrorFaults()) ==> MirrorOk()
    {
      hide FatCodes.EntriesFrom, FatCodes.Bytes, FatCodes.Dword;
      TableOnDisk32(clst);
      var res, dw := ReadDword(4 * clst);
      val := if res.OK? then Mask(fsType, dw) else INVALID;
    }

    method ReadWord(i: nat) returns (res: FResult, v: nat)
      requires Valid() && i % 2 == 0 && i + 1 < fSize * 512
      modifies this`wFlag, this`winSect, win, disk`sec, disk`script
      ensures Valid() && SameButMirror(old(Logical()), Logical())
      ensures FatArea(Logical()) == old(FatArea(Logical()))
      ensures WindowAtFat(old(winSect))
      ensures res.OK? ==> v == Word(FatArea(Logical()), i)
      ensures |old(disk.script)| == 0 ==> |disk.script| == 0 && res.OK?
      ensures old(MirrorOk()) && !old(MirrorFaults()) ==> MirrorOk()
    {
      v := 0;
      res := ShowFat(i);
      if res.OK? {
        v := PeekWord(i);
      }
    }

    method ReadDword(i: nat) returns (res: FResult, v: nat)
      requires Valid() && i % 4 == 0 && i + 3 < fSize * 512
      modifies this`wFlag, this`winSect, win, disk`sec, disk`script
      ensures Valid() && SameButMirror(old(Logical()), Logical())
      ensures FatArea(Logical()) == old(FatArea(Logical()))
      ensures WindowAtFat(old(winSect))
      ensures res.OK? ==> v == Dword(FatArea(Logical()), i)
      ensures |old(disk.script)| == 0 ==> |disk.script| == 0 && res.OK?
      ensures old(MirrorOk()) && !old(MirrorFaults()) ==> MirrorOk()
    {
      v := 0;
      res := ShowFat(i);
      if res.OK? {
        v := PeekDword(i);
      }
    }

    /** ld_word() from the window. */
    method PeekWord(i: nat) returns (v: nat)
      requires Valid() && i % 2 == 0 && i + 1 < fSize * 512 && winSect == fatBase + i / 512
      ensures v == Word(FatArea(Logical()), i)
    {
      ghost var a := FatArea(Logical());
      assert a[i] == win[i % 512] && a[i + 1] == win[i % 512 + 1];
      v := Word(win[..], i % 512);
    }

    /** ld_dword() from the window. */
    method PeekDword(i: nat) returns (v: nat)
      requires Valid() && i % 4 == 0 && i + 3 < fSize * 512 && winSect == fatBase + i / 512
      ensures v == Dword(FatArea(Logical()), i)
    {
      hide FatFs.FatArea, FatFs.Logical, FatFs.Valid, FatFs.Shape, FatCodes.Word;
      SameSector(i, 2);
      EvenHalves(i);
      var lo := PeekWord(i);
      var hi := PeekWord(i + 2);
      v := lo + 0x1_0000 * hi;
    }

    /** put_fat(): change the value of an entry. */
    method PutFat(clst: nat, val: nat) returns (res: FResult)
      requires Valid()
      modifies this`wFlag, this`winSect, win, disk`sec, disk`script
      ensures Valid() && SameOutsideFat(old(Logical()), Logical())
      ensures WindowAtFat(old(winSect))
      ensures 2 <= clst < nFatEnt ==> res.OK? || res.DiskErr?
      ensures !(2 <= clst < nFatEnt) ==> res.IntErr? && Table() == old(Table())
      ensures res.OK? ==> Table() == old(Table())[clst := Mask(fsType, val)]
      ensures forall c | 0 <= c < nFatEnt && c != clst :: Table()[c] == old(Table())[c]
      ensures !res.OK? && !fsType.FAT12? ==> Table() == old(Table())
      ensures fsType.FAT32? ==> SameTops(old(FatArea(Logical())), FatArea(Logical()), nFatEnt)
      ensures fsType.FAT32? || fsType.EXFAT? ==>
                DwordsKept(old(FatArea(Logical())), FatArea(Logical()), nFatEnt, clst)
                && (res.OK? && fsType.EXFAT? ==> Dword(FatArea(Logical()), 4 * clst) == val % 0x1_0000_0000)
      ensures |old(disk.script)| == 0 ==> |disk.script| == 0 && !res.DiskErr?
      ensures old(MirrorOk()) && !old(MirrorFaults()) && (fsType.FAT12? ==> !old(SecondFaults(clst + clst / 2))) ==>
                MirrorOk()
    {
      if clst < 2 || clst >= nFatEnt {
        return IntErr;
      }
      match fsType
      case FAT12 => res := PutFat12(clst, val);
      case FAT16 => res := PutFat16(clst, val);
      case _ => res := PutFat32(clst, val);
    }

    method PutFat12(clst: nat, val: nat) returns (res: FResult)
      requires Valid() && fsType.FAT12? && 2 <= clst < nFatEnt
      modifies this`wFlag, this`winSect, win, disk`sec, disk`script
      ensures Valid() && SameOutsideFat(old(Logical()), Logical())
      ensures WindowAtFat(old(winSect))
      ensures res.OK? || res.DiskErr?
      ensures res.OK? ==> Table() == old(Table())[clst := Mask(fsType, val)]
      ensures forall c | 0 <= c < nFatEnt && c != clst :: Table()[c] == old(Table())[c]
      ensures |old(disk.script)| == 0 ==> |disk.script| == 0 && res.OK?
      ensures old(MirrorOk()) && !old(MirrorFaults()) && !old(SecondFaults(clst + clst / 2)) ==> MirrorOk()
    {
      Store12(FatArea(Logical()), nFatEnt, clst, val);
      res := PutBytes12(clst + clst / 2, clst % 2 == 1, val);
    }

    /** Store a 12-bit entry at byte bc, in one window position or across two. */
    method PutBytes12(bc: nat, odd: bool, val: nat) returns (res: FResult)
      requires Valid() && bc + 1 < fSize * 512
      modifies this`wFlag, this`winSect, win, disk`sec, disk`script
      ensures Valid() && SameOutsideFat(old(Logical()), Logical())
      ensures WindowAtFat(old(winSect))
      ensures res.OK? || res.DiskErr?
      ensures res.OK? ==> FatArea(Logical()) == Stored12(old(FatArea(Logical())), bc, odd, val)
      ensures res.OK? || FatArea(Logical()) == old(FatArea(Logical()))
              || FatArea(Logical()) == Half12(old(FatArea(Logical())), bc, odd, val)
      ensures |old(disk.script)| == 0 ==> |disk.script| == 0 && res.OK?
      ensures old(MirrorOk()) && !old(MirrorFaults()) && !old(SecondFaults(bc)) ==> MirrorOk()
    {
      hide FatFs.FatArea, FatFs.Logical, FatFs.MirrorOk, FatCodes.Bytes;
      res := ShowFat(bc);
      if res.OK? {
        PokeFat(bc, Low12(odd, win[bc % 512], val));
        res := ShowFat(bc + 1);
        if res.OK? {
          PokeFat(bc + 1, High12(odd, win[(bc + 1) % 512], val));
        }
      }
    }

    method PutFat16(clst: nat, val: nat) returns (res: FResult)
      requires Valid() && fsType.FAT16? && 2 <= clst < nFatEnt
      modifies this`wFlag, this`winSect, win, disk`sec, disk`script
      ensures Valid() && SameOutsideFat(old(Logical()), Logical())
      ensures WindowAtFat(old(winSect))
      ensures res.OK? || res.DiskErr?
      ensures res.OK? ==> Table() == old(Table())[clst := Mask(fsType, val)]
      ensures !res.OK? ==> Table() == old(Table())
      ensures |old(disk.script)| == 0 ==> |disk.script| == 0 && res.OK?
      ensures old(MirrorOk()) && !old(MirrorFaults()) ==> MirrorOk()
    {
      hide FatCodes.EntriesFrom, FatCodes.Bytes, FatCodes.StWord, FatFs.FatArea, FatFs.Logical, FatFs.MirrorOk,
        FatFs.Valid, FatFs.Shape, FatFs.SameOutsideFat, FatFs.SameButMirror;
      TableFits();
      Width16(clst);
      ghost var l := Logical();
      Store16(FatArea(l), nFatEnt, clst, val);
      res := ShowFat(2 * clst);
      if res.OK? {
        ghost var m := Logical();
        PokeWord(2 * clst, val);
        OutsideTwice(l, m, Logical());
      }
    }

    method PutFat32(clst: nat, val: nat) returns (res: FResult)
      requires Valid() && (fsType.FAT32? || fsType.EXFAT?) && 2 <= clst < nFatEnt
      modifies this`wFlag, this`winSect, win, disk`sec, disk`script
      ensures Valid() && SameOutsideFat(old(Logical()), Logical())
      ensures WindowAtFat(old(winSect))
      ensures res.OK? || res.DiskErr?
      ensures res.OK? ==> Table() == old(Table())[clst := Mask(fsType, val)]
      ensures !res.OK? ==> Table() == old(Table())
      ensures fsType.FAT32? ==> SameTops(old(FatArea(Logical())), FatArea(Logical()), nFatEnt)
      ensures fsType.FAT32? || fsType.EXFAT? ==>
                DwordsKept(old(FatArea(Logical())), FatArea(Logical()), nFatEnt, clst)
                && (res.OK? && fsType.EXFAT? ==> Dword(FatArea(Logical()), 4 * clst) == val % 0x1_0000_0000)
      ensures |old(disk.script)| == 0 ==> |disk.script| == 0 && res.OK?
      ensures old(MirrorOk()) && !old(MirrorFaults()) ==> MirrorOk()
    {
      hide FatCodes.EntriesFrom, FatCodes.Bytes, FatCodes.Dword, FatCodes.StDword, FatFs.FatArea, FatFs.Logical,
        FatFs.MirrorOk, FatFs.Valid, FatFs.Shape, FatFs.SameOutsideFat, FatFs.SameButMirror;
      TableOnDisk32(clst);
      TableFits();
      ghost var l := Logical();
      res := ShowFat(4 * clst);
      if res.OK? {
        var dw := val;
        if !fsType.EXFAT? {
          var was := PeekDword(4 * clst);
          Merge32(val, was);
          Store28(FatArea(Logical()), nFatEnt, clst, val);
          dw := val % 0x1000_0000 + was / 0x1000_0000 * 0x1000_0000;
        }
        Store32(fsType, FatArea(Logical()), nFatEnt, clst, dw);
        DwordsStored(FatArea(Logical()), nFatEnt, clst, dw);
        ghost var m := Logical();
        PokeDword(4 * clst, dw);
        OutsideTwice(l, m, Logical());
      }
    }

    /** st_word() into the window. */
    method PokeWord(i: nat, v: nat)
      requires Valid() && i % 2 == 0 && i + 1 < fSize * 512 && winSect == fatBase + i / 512
      modifies this`wFlag, win
      ensures Valid() && wFlag
      ensures FatArea(Logical()) == StWord(old(FatArea(Logical())), i, v)
      ensures SameOutsideFat(old(Logical()), Logical())
      ensures old(MirrorOk()) ==> MirrorOk()
    {
      hide FatFs.FatArea, FatFs.Logical, FatFs.MirrorOk, FatFs.Valid, FatFs.Shape, FatFs.SameOutsideFat;
      SameSector(i, 1);
      ghost var l := Logical();
      PokeFat(i, v % 0x100);
      ghost var m := Logical();
      PokeFat(i + 1, v / 0x100 % 0x100);
      OutsideTwice(l, m, Logical());
    }

    /** st_dword() into the window. */
    method PokeDword(i: nat, v: nat)
      requires Valid() && i % 4 == 0 && i + 3 < fSize * 512 && winSect == fatBase + i / 512
      modifies this`wFlag, win
      ensures Valid() && wFlag
      ensures FatArea(Logical()) == StDword(old(FatArea(Logical())), i, v)
      ensures SameOutsideFat(old(Logical()), Logical())
      ensures old(MirrorOk()) ==> MirrorOk()
    {
      hide FatFs.FatArea, FatFs.Logical, FatFs.MirrorOk, FatFs.Valid, FatFs.Shape, FatCodes.StWord;
      SameSector(i, 2);
      EvenHalves(i);
      PokeWord(i, v);
      PokeWord(i + 2, v / 0x1_0000);
    }
  }
}
