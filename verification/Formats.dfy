/** Laying out a new FAT volume (f_mkfs) and finding the layout of one (find_volume), in 32-bit arithmetic. */
module Formats {
  import opened FatCodes
  import opened Volumes
  import opened Layout

  const WORD: nat := 0x1_0000
  const DWORD: nat := 0x1_0000_0000

  function W32(x: int): nat {
    x % 0x1_0000_0000
  }

  predicate Pow2(x: nat) {
    x in {1, 2, 4, 8, 16, 32, 64, 128, 256, 512, 1024, 2048, 4096, 8192, 16384, 32768}
  }

  // ---------------------------------------------------------------- the boot record

  /** The fields of the boot record that describe the layout, as wide as they are stored. */
  datatype Bpb = Bpb(bytsPerSec: nat, secPerClus: nat, rsvdSecCnt: nat, numFats: nat, rootEntCnt: nat, totSec16: nat,
                     fatSz16: nat, totSec32: nat, fatSz32: nat, fsVer32: nat)

  /** What the mounted volume knows about its layout. */
  datatype Mounted = Mounted(fsType: FsType, nFats: nat, cSize: nat, nFatEnt: nat, fSize: nat, volBase: nat,
    fatBase: nat, dataBase: nat)

  datatype Option<T> = None | Some(value: T)

  /** The FAT part of find_volume(): the layout of the volume at sector bsect, None for a record it refuses. */
  function Mount(b: Bpb, bsect: nat): Option<Mounted> {
    var fSize := if b.fatSz16 == 0 then b.fatSz32 else b.fatSz16;
    var fasize := W32(fSize * b.numFats);
    var tsect := if b.totSec16 == 0 then b.totSec32 else b.totSec16;
    var sysect := W32(b.rsvdSecCnt + fasize + b.rootEntCnt / 16);
    if b.bytsPerSec != 512 || (b.numFats != 1 && b.numFats != 2) then None
    else if !Pow2(b.secPerClus) || b.rootEntCnt % 16 != 0 || b.rsvdSecCnt == 0 || tsect < sysect then None
    else
      var nclst := Quot(tsect - sysect, b.secPerClus);
      if nclst == 0 || nclst > MAX_FAT32 then None
      else
        var fmt := if nclst <= MAX_FAT12 then FAT12 else if nclst <= MAX_FAT16 then FAT16 else FAT32;
        if (if fmt.FAT32? then b.fsVer32 != 0 || b.rootEntCnt != 0 else b.rootEntCnt == 0) then None
        else if fSize < W32(W32(Bytes(fmt, nclst + 2)) + 511) / 512 then None
        else Some(Mounted(fmt, b.numFats, b.secPerClus, nclst + 2, fSize, bsect, W32(bsect + b.rsvdSecCnt),
          W32(bsect + sysect)))
  }

  // ---------------------------------------------------------------- planning a FAT volume

  /** What f_mkfs() decides: FAT sub-type, cluster size, sizes of the reserved area, the FAT and the root
      directory, first sector of the FAT, number of clusters. */
  datatype Plan = Plan(fmt: FsType, pau: nat, szRsv: nat, szFat: nat, szDir: nat, bFat: nat, nClst: nat)

  /** The volume of szVol sectors from bVol, on a device with erase blocks of blk sectors, can be laid out so. */
  ghost predicate Good(szVol: nat, bVol: nat, blk: nat, p: Plan)
    requires 0 < blk
  {
    var sys := p.szRsv + p.szFat + p.szDir;
    && Pow2(p.pau) && p.pau <= 128
    && 1 <= p.szRsv < WORD && 1 <= p.szFat && p.bFat == bVol + p.szRsv
    && p.szDir == (if p.fmt.FAT32? then 0 else 32)
    && Rem(bVol + sys, blk) == 0
    && sys <= szVol && p.nClst == Quot(szVol - sys, p.pau)
    && (match p.fmt
        case FAT12 => p.nClst <= MAX_FAT12 && p.szFat < WORD
        case FAT16 => MAX_FAT12 < p.nClst <= MAX_FAT16 && p.szFat < WORD
        case FAT32 => MAX_FAT16 < p.nClst <= MAX_FAT32
        case EXFAT => false)
    && Bytes(p.fmt, p.nClst + 2) <= p.szFat * 512
  }

  /** The least number of sectors of a FAT with n entries. */
  function Room(t: FsType, n: nat): (r: nat)
    ensures Bytes(t, n) <= r * 512 < Bytes(t, n) + 512
  {
    (Bytes(t, n) + 511) / 512
  }

  /** The first multiple of b from x on. */
  function Multiple(x: nat, b: nat): (r: nat)
    requires 0 < b
    ensures x <= r < x + b && Rem(r, b) == 0
  {
    NextMultiple(x, b);
    if Rem(x, b) == 0 then x else x + (b - Rem(x, b))
  }

  lemma NextMultiple(x: nat, b: nat)
    requires 0 < b
    ensures Rem(x, b) != 0 ==> Rem(x + (b - Rem(x, b)), b) == 0
  {
    if Rem(x, b) != 0 {
      Across(x, b - Rem(x, b), b);
    }
  }

  /** There is one multiple in a row of b numbers. */
  lemma OneMultiple(x: nat, b: nat, y: nat)
    requires 0 < b && x <= y < x + b && Rem(y, b) == 0
    ensures y == Multiple(x, b)
  {
    hide Rem, Quot, Prod, Multiple;
    var z := Multiple(x, b);
    Divided(y, b);
    Divided(z, b);
    if Quot(y, b) < Quot(z, b) {
      ProdGrows(Quot(y, b), Quot(z, b), b);
    } else if Quot(z, b) < Quot(y, b) {
      ProdGrows(Quot(z, b), Quot(y, b), b);
    }
  }

  lemma MultipleGrows(x: nat, y: nat, b: nat)
    requires 0 < b && x <= y
    ensures Multiple(x, b) <= Multiple(y, b)
  {
    hide Multiple;
    if Multiple(y, b) < Multiple(x, b) {
      OneMultiple(x, b, Multiple(y, b));
    }
  }

  /** The sectors before the data area, without padding: reserved ones, a FAT for the clusters that would fit if there
      were nothing else, and the root directory. */
  ghost function HeadSectors(szVol: nat, fmt: FsType, pau: nat): nat
    requires 0 < pau
  {
    (if fmt.FAT32? then 32 else 33) + Room(fmt, Quot(szVol, pau) + 2)
  }

  /** With the padding that makes the data area begin at an erase block. */
  ghost function SystemSectors(szVol: nat, bVol: nat, blk: nat, fmt: FsType, pau: nat): (r: nat)
    requires 0 < pau && 0 < blk
    ensures HeadSectors(szVol, fmt, pau) <= r < HeadSectors(szVol, fmt, pau) + blk && Rem(bVol + r, blk) == 0
  {
    Multiple(bVol + HeadSectors(szVol, fmt, pau), blk) - bVol
  }

  lemma SystemIs(szVol: nat, bVol: nat, blk: nat, fmt: FsType, pau: nat)
    requires 0 < pau && 0 < blk
    ensures bVol + SystemSectors(szVol, bVol, blk, fmt, pau) == Multiple(bVol + HeadSectors(szVol, fmt, pau), blk)
  {
  }

  /** The volume has room for a file system of this type with clusters of pau sectors. */
  ghost predicate Fits(szVol: nat, bVol: nat, blk: nat, fmt: FsType, pau: nat)
    requires 0 < pau && 0 < blk
  {
    var n0, sys := Quot(szVol, pau), SystemSectors(szVol, bVol, blk, fmt, pau);
    && HeadSectors(szVol, fmt, pau) + 16 * pau <= szVol
    && match fmt
       case FAT12 => n0 <= MAX_FAT12 && sys <= szVol
       case FAT16 => MAX_FAT12 < n0 && sys + Prod(MAX_FAT12 + 1, pau) <= szVol < sys + Prod(MAX_FAT16 + 1, pau)
       case FAT32 => MAX_FAT16 < n0 <= MAX_FAT32 && sys + Prod(MAX_FAT16 + 1, pau) <= szVol
       case EXFAT => false
  }

  /** Then it is laid out so. */
  ghost function LaidOut(szVol: nat, bVol: nat, blk: nat, fmt: FsType, pau: nat): (p: Plan)
    requires 0 < pau && 0 < blk && Fits(szVol, bVol, blk, fmt, pau)
    ensures p.fmt == fmt && p.pau == pau
  {
    var sys, fat := SystemSectors(szVol, bVol, blk, fmt, pau), Room(fmt, Quot(szVol, pau) + 2);
    NotBelow(szVol, bVol, blk, fmt, pau);
    if fmt.FAT32? then Plan(FAT32, pau, sys - fat, fat, 0, bVol + (sys - fat), Quot(szVol - sys, pau))
    else Plan(fmt, pau, 1, sys - 33, 32, bVol + 1, Quot(szVol - sys, pau))
  }

  lemma NotBelow(szVol: nat, bVol: nat, blk: nat, fmt: FsType, pau: nat)
    requires 0 < pau && 0 < blk && Fits(szVol, bVol, blk, fmt, pau)
    ensures SystemSectors(szVol, bVol, blk, fmt, pau) <= szVol
  {
    hide SystemSectors, HeadSectors;
  }

  /** The cluster size that is tried first when none is requested. */
  function FirstSize(szVol: nat, fmt: FsType): (pau: nat)
    ensures Pow2(pau) && pau <= 64
    ensures fmt.FAT32? ==> (pau == 1 || pau / 2 * 0x2_0000 <= szVol) && (pau == 64 || szVol < pau * 0x2_0000)
  {
    if fmt.FAT32? then
      if szVol < 0x2_0000 then 1 else if szVol < 0x4_0000 then 2 else if szVol < 0x8_0000 then 4
      else if szVol < 0x10_0000 then 8 else if szVol < 0x20_0000 then 16 else if szVol < 0x40_0000 then 32 else 64
    else
      if szVol < 0x1000 then 1 else if szVol < 0x4000 then 2 else if szVol < 0x1_0000 then 4
      else if szVol < 0x4_0000 then 8 else if szVol < 0x10_0000 then 16 else if szVol < 0x20_0000 then 32 else 64
  }

  /** x rounded up to a multiple of the power of two b. */
  function AlignUp(x: nat, b: nat): nat
    requires 0 < b
  {
    Divided(W32(x + b - 1), b);
    W32(x + b - 1) - Rem(W32(x + b - 1), b)
  }

  lemma Padding(x: nat, b: nat)
    requires 0 < b && x + b <= DWORD
    ensures Sub32(AlignUp(x, b), x) < b
    ensures Rem(x + Sub32(AlignUp(x, b), x), b) == 0
  {
    hide Quot, Rem, Prod, W32;
    var y := x + b - 1;
    Wraps(y);
    Divided(y, b);
    Unique(Quot(y, b), 0, b);
  }

  lemma QuotMonotone(x: nat, y: nat, c: nat)
    requires 0 < c && x <= y
    ensures Quot(x, c) <= Quot(y, c)
  {
    Divided(x, c);
    Divided(y, c);
    if Quot(y, c) < Quot(x, c) {
      ProdGrows(Quot(y, c), Quot(x, c), c);
    }
  }

  lemma ProdAdds(a: nat, b: nat, c: nat)
    ensures Prod(a + b, c) == Prod(a, c) + Prod(b, c)
  {
  }

  lemma {:induction false} ProdBounds(a: nat, c: nat)
    requires 1 <= c
    ensures a <= Prod(a, c) && (c <= 128 ==> Prod(a, c) <= a * 128)
  {
    hide Prod;
    if a == 0 {
      NoClusters(c);
    } else {
      ProdBounds(a - 1, c);
      OneMore(a - 1, c);
    }
  }

  lemma QuotBounds(x: nat, c: nat)
    requires 0 < c <= 128
    ensures x / 128 <= Quot(x, c) <= x
  {
    hide Prod, Quot, Rem;
    Divided(x, c);
    var q := Quot(x, c);
    ProdBounds(q, c);
  }

  /** Taking d away lowers the quotient by little more than d. */
  lemma QuotNear(x: nat, d: nat, c: nat)
    requires 0 < c && d <= x
    ensures Quot(x, c) <= Quot(x - d, c) + d + 1
  {
    hide Prod, Quot, Rem;
    Divided(x, c);
    Divided(x - d, c);
    var q, r := Quot(x, c), Quot(x - d, c);
    if q >= r + d + 2 {
      ProdAdds(r, q - r, c);
      ProdAdds(q - r - 1, 1, c);
      OneMore(q - r - 1, c);
      ProdBounds(q - r - 1, c);
    }
  }

  // ---------------------------------------------------------------- accepted sizes are good

  /** A FAT32 volume: the estimate n0 of the number of clusters, the padding of the reserved area. */
  lemma GoodFat32(szVol: nat, bVol: nat, blk: nat, pau: nat, pad: nat)
    requires 128 <= szVol < DWORD && bVol <= 63 && 0 < blk <= 32768 && pad < blk && Pow2(pau) && pau <= 128
    requires MAX_FAT16 < Quot(szVol, pau) <= MAX_FAT32
    requires Rem(bVol + 32 + (Quot(szVol, pau) * 4 + 519) / 512 + pad, blk) == 0
    ensures var szFat := (Quot(szVol, pau) * 4 + 519) / 512; var sys := 32 + pad + szFat;
      && szFat <= 0x20_0000 && sys <= szVol
      && (MAX_FAT16 < Quot(szVol - sys, pau) ==>
            Good(szVol, bVol, blk, Plan(FAT32, pau, 32 + pad, szFat, 0, bVol + 32 + pad, Quot(szVol - sys, pau))))
  {
    hide Quot, Rem, Prod;
    QuotBounds(szVol, pau);
    var n0 := Quot(szVol, pau);
    var szFat := (n0 * 4 + 519) / 512;
    assert 32 + pad + szFat <= n0 <= szVol;
    QuotMonotone(szVol - (32 + pad + szFat), szVol, pau);
  }

  lemma Wraps(x: int)
    requires 0 - DWORD <= x < 4 * DWORD
    ensures W32(x) < DWORD
    ensures W32(x) == if x < 0 then x + DWORD else if x < DWORD then x else W32(x - DWORD)
  {
  }

  /** The size of a FAT with 16-bit entries for about n0 clusters. */
  function Fat16Size(n0: nat): nat {
    W32(W32(n0 * 2 + 4) + 511) / 512
  }

  /** The size of a FAT with 12-bit entries for about n0 clusters. */
  function Fat12Size(n0: nat): nat {
    ((n0 * 3 + 1) / 2 + 3 + 511) / 512
  }

  lemma Fat16Fits(n0: nat)
    requires n0 < DWORD
    ensures Fat16Size(n0) <= 0x80_0000
    ensures n0 < 0x7FFF_0000 ==> Fat16Size(n0) == (2 * n0 + 515) / 512
  {
    hide W32;
    Wraps(n0 * 2 + 4);
    Wraps(W32(n0 * 2 + 4) + 511);
    Wraps(n0 * 2 + 4 - DWORD);
    Wraps(W32(n0 * 2 + 4) + 511 - DWORD);
  }

  /** The number of clusters behind sys sectors, if it is one of FAT12 or FAT16, comes from no wrap-around,
      and is near the estimate. */
  lemma ClustersBehind(szVol: nat, sys: nat, pau: nat)
    requires szVol < DWORD && sys <= 0x100_0000 && 0 < pau <= 128
    ensures var n := Quot(W32(szVol - sys), pau);
      n <= MAX_FAT16 ==>
        sys <= szVol && n == Quot(szVol - sys, pau) && n <= Quot(szVol, pau) <= n + sys + 1
  {
    hide Quot, W32;
    Wraps(szVol - sys);
    QuotBounds(W32(szVol - sys), pau);
    if sys <= szVol {
      QuotNear(szVol, sys, pau);
      QuotMonotone(szVol - sys, szVol, pau);
    }
  }

  /** A FAT16 volume: the FAT takes the padding. */
  lemma GoodFat16(szVol: nat, bVol: nat, blk: nat, pau: nat, pad: nat)
    requires szVol < DWORD && 0 < blk <= 32768 && pad < blk && Pow2(pau) && pau <= 128
    requires Rem(bVol + 33 + Fat16Size(Quot(szVol, pau)) + pad, blk) == 0
    ensures var sys := 33 + Fat16Size(Quot(szVol, pau)) + pad; var n := Quot(W32(szVol - sys), pau);
      MAX_FAT12 < n <= MAX_FAT16 ==> Good(szVol, bVol, blk, Plan(FAT16, pau, 1, sys - 33, 32, bVol + 1, n))
  {
    hide Quot, Rem, W32, Fat16Size, Pow2;
    Positive(pau);
    var n0 := Quot(szVol, pau);
    QuotBounds(szVol, pau);
    Fat16Fits(n0);
    ClustersBehind(szVol, 33 + Fat16Size(n0) + pad, pau);
  }

  /** A FAT12 volume: the FAT takes the padding. */
  lemma GoodFat12(szVol: nat, bVol: nat, blk: nat, pau: nat, pad: nat)
    requires szVol < DWORD && 0 < blk <= 32768 && pad < blk && Pow2(pau) && pau <= 128 && Quot(szVol, pau) <= MAX_FAT12
    requires Rem(bVol + 33 + Fat12Size(Quot(szVol, pau)) + pad, blk) == 0
    ensures var sys := 33 + Fat12Size(Quot(szVol, pau)) + pad; var n := Quot(W32(szVol - sys), pau);
      n <= MAX_FAT12 ==> Good(szVol, bVol, blk, Plan(FAT12, pau, 1, sys - 33, 32, bVol + 1, n))
  {
    hide Quot, Rem, W32, Pow2;
    Positive(pau);
    ClustersBehind(szVol, 33 + Fat12Size(Quot(szVol, pau)) + pad, pau);
  }

  lemma BlockSize(blk: nat)
    requires Pow2(blk)
    ensures 0 < blk <= 32768
  {
  }

  lemma DoubleSize(pau: nat)
    requires Pow2(pau) && pau <= 128
    ensures pau * 2 <= 128 ==> Pow2(pau * 2)
  {
  }

  lemma Positive(x: nat)
    requires Pow2(x)
    ensures 0 < x
  {
  }

  /** The cluster size pau doubles with every boundary from number i on that n reaches. */
  function Chosen(bounds: seq<nat>, n: nat, i: nat, pau: nat): nat
    requires i < |bounds| && bounds[|bounds| - 1] == 0
    decreases |bounds| - i
  {
    if bounds[i] != 0 && bounds[i] <= n then Chosen(bounds, n, i + 1, pau * 2) else pau
  }

  /** The cluster size chosen for a volume. */
  method ClusterSize(bounds: seq<nat>, n: nat) returns (pau: nat)
    requires |bounds| == 7 && bounds[6] == 0
    ensures Pow2(pau) && pau <= 64 && pau == Chosen(bounds, n, 0, 1)
  {
    var i := 0;
    pau := 1;
    while bounds[i] != 0 && bounds[i] <= n
      invariant 0 <= i <= 6 && Pow2(pau)
      invariant pau == [1, 2, 4, 8, 16, 32, 64][i] && Chosen(bounds, n, i, pau) == Chosen(bounds, n, 0, 1)
      decreases 6 - i
    {
      i, pau := i + 1, pau * 2;
    }
  }

  datatype Step = Done(plan: Plan) | Again(au: nat, fmt: FsType) | Aborted

  /** How often f_mkfs() may still change its mind. */
  function Tries(au: nat, fmt: FsType): nat {
    (if fmt.FAT32? then 0 else 2) + if au == 0 then 1 else 0
  }

  /** A requested cluster size (0: any). */
  predicate Requested(au: nat) {
    au == 0 || (Pow2(au) && au <= 128)
  }

  /** The size of the FAT32 table, and where the data area starts before the padding, fit 32 bits. */
  lemma NoWrap32(bVol: nat, n0: nat)
    requires bVol <= 63 && n0 <= MAX_FAT32
    ensures W32(n0 * 4 + 8 + 511) / 512 == (n0 * 4 + 519) / 512 <= 0x20_0000
    ensures W32(W32(bVol + 32) + (n0 * 4 + 519) / 512) == bVol + 32 + (n0 * 4 + 519) / 512
  {
    hide W32;
    Wraps(n0 * 4 + 8 + 511);
    Wraps(bVol + 32);
    Wraps(bVol + 32 + (n0 * 4 + 519) / 512);
  }

  /** The 32-bit arithmetic of the layout comes to the multiple of the erase block that is meant. */
  lemma Padded(bVol: nat, head: nat, blk: nat)
    requires 0 < blk && bVol + head + blk <= DWORD
    ensures bVol + head + Sub32(AlignUp(bVol + head, blk), bVol + head) == Multiple(bVol + head, blk)
  {
    hide AlignUp, Sub32, Multiple;
    Padding(bVol + head, blk);
    OneMultiple(bVol + head, blk, bVol + head + Sub32(AlignUp(bVol + head, blk), bVol + head));
  }

  /** The test for 16 clusters does not wrap around. */
  lemma Sixteen(szVol: nat, bVol: nat, head: nat, pau: nat)
    requires bVol <= 63 && head <= 0x100_0000 && pau <= 128
    ensures Sub32(W32(bVol + head + pau * 16), bVol) == head + 16 * pau
  {
    hide W32;
    Wraps(bVol + head + pau * 16);
  }

  /** The number of clusters behind sys sectors against a bound. */
  lemma ClustersUpTo(szVol: nat, sys: nat, pau: nat, m: nat)
    requires sys <= szVol && 0 < pau
    ensures Quot(szVol - sys, pau) <= m <==> szVol < sys + Prod(m + 1, pau)
  {
    hide Quot, Prod;
    InRange(szVol - sys, m + 1, pau);
  }

  /** The sizes of a FAT32 volume. */
  lemma Sizes32(szVol: nat, bVol: nat, blk: nat, pau: nat)
    requires 128 <= szVol < DWORD && bVol <= 63 && 0 < blk <= 32768 && Pow2(pau) && pau <= 128
    requires MAX_FAT16 < Quot(szVol, pau) <= MAX_FAT32
    ensures 0 < pau
    ensures var fat, head := Room(FAT32, Quot(szVol, pau) + 2), HeadSectors(szVol, FAT32, pau);
      var sys := SystemSectors(szVol, bVol, blk, FAT32, pau); var n := Sub32(AlignUp(bVol + head, blk), bVol + head);
      && W32(Quot(szVol, pau) * 4 + 8 + 511) / 512 == fat && W32(W32(bVol + 32) + fat) == bVol + head
      && n < blk && sys == head + n <= szVol && head == 32 + fat <= 0x100_0000
      && W32(szVol - (32 + n) - fat) == szVol - sys
  {
    hide Quot, Rem, Prod, AlignUp, W32, Sub32, Pow2, Good, Multiple;
    Positive(pau);
    var n0, head := Quot(szVol, pau), HeadSectors(szVol, FAT32, pau);
    NoWrap32(bVol, n0);
    Padding(bVol + head, blk);
    Padded(bVol, head, blk);
    GoodFat32(szVol, bVol, blk, pau, Sub32(AlignUp(bVol + head, blk), bVol + head));
    Wraps(szVol - SystemSectors(szVol, bVol, blk, FAT32, pau));
  }

  /** The layout has too few clusters for FAT32, though there is room for some. */
  ghost predicate Few32(szVol: nat, bVol: nat, blk: nat, pau: nat)
    requires 0 < pau && 0 < blk
  {
    && MAX_FAT16 < Quot(szVol, pau) <= MAX_FAT32 && HeadSectors(szVol, FAT32, pau) + 16 * pau <= szVol
    && szVol < SystemSectors(szVol, bVol, blk, FAT32, pau) + Prod(MAX_FAT16 + 1, pau)
  }

  lemma Good32(szVol: nat, bVol: nat, blk: nat, pau: nat)
    requires 128 <= szVol < DWORD && bVol <= 63 && 0 < blk <= 32768 && Pow2(pau) && pau <= 128
    requires 0 < pau && Fits(szVol, bVol, blk, FAT32, pau)
    ensures Good(szVol, bVol, blk, LaidOut(szVol, bVol, blk, FAT32, pau))
  {
    hide Quot, Rem, Prod, AlignUp, W32, Sub32, Pow2, Multiple;
    var n := Sub32(AlignUp(bVol + HeadSectors(szVol, FAT32, pau), blk), bVol + HeadSectors(szVol, FAT32, pau));
    Sizes32(szVol, bVol, blk, pau);
    ClustersUpTo(szVol, SystemSectors(szVol, bVol, blk, FAT32, pau), pau, MAX_FAT16);
    GoodFat32(szVol, bVol, blk, pau, n);
  }

  /** What the 32-bit arithmetic of one try at FAT32 decides. */
  lemma Decides32(szVol: nat, bVol: nat, blk: nat, pau: nat)
    requires 128 <= szVol && bVol <= 63 && bVol + szVol < DWORD && 0 < blk <= 32768 && Pow2(pau) && 0 < pau <= 128
    ensures var n0 := Quot(szVol, pau);
      var f := W32(n0 * 4 + 8 + 511) / 512;
      var bData := W32(W32(bVol + 32) + f);
      var n := Sub32(AlignUp(bData, blk), bData);
      var room, c := Sub32(W32(bData + pau * 16), bVol) <= szVol, Quot(W32(szVol - (32 + n) - f), pau);
      && (MAX_FAT16 < n0 <= MAX_FAT32 && room && c <= MAX_FAT16 <==> Few32(szVol, bVol, blk, pau))
      && (MAX_FAT16 < n0 <= MAX_FAT32 && room && c > MAX_FAT16 <==> Fits(szVol, bVol, blk, FAT32, pau))
      && (Fits(szVol, bVol, blk, FAT32, pau) ==>
            && Good(szVol, bVol, blk, LaidOut(szVol, bVol, blk, FAT32, pau))
            && LaidOut(szVol, bVol, blk, FAT32, pau) == Plan(FAT32, pau, 32 + n, f, 0, bVol + 32 + n, c))
  {
    hide Quot, Rem, Prod, AlignUp, W32, Good, Sub32, Pow2, Room, Multiple, HeadSectors, SystemSectors;
    if MAX_FAT16 < Quot(szVol, pau) <= MAX_FAT32 {
      Sizes32(szVol, bVol, blk, pau);
      Sixteen(szVol, bVol, HeadSectors(szVol, FAT32, pau), pau);
      ClustersUpTo(szVol, SystemSectors(szVol, bVol, blk, FAT32, pau), pau, MAX_FAT16);
      if Fits(szVol, bVol, blk, FAT32, pau) {
        Good32(szVol, bVol, blk, pau);
      }
    }
  }

  /** One try at FAT32. */
  method TryFat32(szVol: nat, bVol: nat, blk: nat, au: nat) returns (s: Step)
    requires 128 <= szVol && bVol <= 63 && bVol + szVol < DWORD && Pow2(blk) && Requested(au)
    ensures s.Done? ==> Good(szVol, bVol, blk, s.plan)
    ensures s.Again? ==> au == 0 && Requested(s.au) && s.fmt == FAT32 && Tries(s.au, s.fmt) < Tries(au, FAT32)
    ensures var pau := if au == 0 then FirstSize(szVol, FAT32) else au;
      && 0 < pau && 0 < blk
      && (s.Done? <==> Fits(szVol, bVol, blk, FAT32, pau))
      && (s.Done? ==> s.plan == LaidOut(szVol, bVol, blk, FAT32, pau))
      && (s.Again? <==> au == 0 && 2 <= pau && Few32(szVol, bVol, blk, pau))
      && (s.Again? ==> s.au == pau / 2 && s.au != 0)
  {
    hide Quot, Rem, Prod, AlignUp, W32, Good, Sub32, Pow2, Few32, Fits, LaidOut;
    BlockSize(blk);
    var pau := au;
    if pau == 0 {
      pau := ClusterSize([1, 2, 4, 8, 16, 32, 0], szVol / 0x2_0000);
      Chosen32(szVol);
    }
    Positive(pau);
    HalfSize(pau);
    Decides32(szVol, bVol, blk, pau);
    var nClst := Quot(szVol, pau);
    var szFat := W32(nClst * 4 + 8 + 511) / 512;
    if nClst <= MAX_FAT16 || nClst > MAX_FAT32 {
      return Aborted;
    }
    var bData := W32(W32(bVol + 32) + szFat);
    var n := Sub32(AlignUp(bData, blk), bData);
    if szVol < Sub32(W32(bData + pau * 16), bVol) {
      return Aborted;
    }
    nClst := Quot(W32(szVol - (32 + n) - szFat), pau);
    if nClst <= MAX_FAT16 {
      if au == 0 && pau / 2 != 0 {
        return Again(pau / 2, FAT32);
      }
      return Aborted;
    }
    s := Done(Plan(FAT32, pau, 32 + n, szFat, 0, bVol + 32 + n, nClst));
  }

  lemma HalfSize(pau: nat)
    requires Pow2(pau)
    ensures 2 <= pau ==> Pow2(pau / 2)
  {
  }

  /** The cluster size from the table is the one meant. */
  lemma Chosen32(szVol: nat)
    ensures Chosen([1, 2, 4, 8, 16, 32, 0], szVol / 0x2_0000, 0, 1) == FirstSize(szVol, FAT32)
  {
  }

  lemma SmallFat(n0: nat)
    requires n0 <= MAX_FAT12
    ensures 1 <= Fat12Size(n0) <= 16
  {
  }

  lemma NoWrap(bVol: nat, szFat: nat)
    requires bVol <= 63 && szFat <= 0x80_0000
    ensures W32(W32(bVol + 1) + szFat + 32) == bVol + 33 + szFat
  {
  }

  /** The type that a layout for FAT12 or FAT16 has by its size. */
  function Small(szVol: nat, pau: nat): FsType
    requires 0 < pau
  {
    if Quot(szVol, pau) <= MAX_FAT12 then FAT12 else FAT16
  }

  /** The sizes of the FAT are those meant. */
  lemma RoomFat12(n0: nat)
    ensures Room(FAT12, n0 + 2) == Fat12Size(n0)
  {
  }

  lemma RoomFat16(n0: nat)
    requires n0 < 0x7FFF_0000
    ensures Room(FAT16, n0 + 2) == Fat16Size(n0)
  {
    hide Fat16Size;
    Fat16Fits(n0);
  }

  /** The sizes of a FAT12 or FAT16 volume. */
  lemma Sizes16(szVol: nat, bVol: nat, blk: nat, pau: nat)
    requires 128 <= szVol < DWORD && bVol <= 63 && 0 < blk <= 32768 && 0 < pau <= 128 && Quot(szVol, pau) < 0x7FFF_0000
    ensures var n0, fmt, head := Quot(szVol, pau), Small(szVol, pau), HeadSectors(szVol, Small(szVol, pau), pau);
      var fat, sys := Room(fmt, n0 + 2), SystemSectors(szVol, bVol, blk, fmt, pau);
      var n := Sub32(AlignUp(bVol + head, blk), bVol + head);
      && fat == (if n0 > MAX_FAT12 then Fat16Size(n0) else Fat12Size(n0)) && head == 33 + fat <= 0x100_0000
      && W32(W32(bVol + 1) + fat + 32) == bVol + head && n < blk && sys == head + n
  {
    hide Quot, Rem, Prod, AlignUp, W32, Sub32, Fat16Size, Fat12Size, Multiple, Room, SystemSectors;
    var n0, head := Quot(szVol, pau), HeadSectors(szVol, Small(szVol, pau), pau);
    Fat16Fits(n0);
    if n0 <= MAX_FAT12 {
      RoomFat12(n0);
      SmallFat(n0);
    } else {
      RoomFat16(n0);
    }
    NoWrap(bVol, Room(Small(szVol, pau), n0 + 2));
    Padding(bVol + head, blk);
    Padded(bVol, head, blk);
    SystemIs(szVol, bVol, blk, Small(szVol, pau), pau);
  }

  /** There is room for a FAT16 file system, but for too many clusters, or none at all. */
  ghost predicate Many16(szVol: nat, bVol: nat, blk: nat, pau: nat)
    requires 0 < pau && 0 < blk
  {
    var sys := SystemSectors(szVol, bVol, blk, FAT16, pau);
    && MAX_FAT12 < Quot(szVol, pau) && HeadSectors(szVol, FAT16, pau) + 16 * pau <= szVol
    && (szVol < sys || sys + Prod(MAX_FAT16 + 1, pau) <= szVol)
  }

  /** There is room for a FAT16 file system, but for too few clusters. */
  ghost predicate Few16(szVol: nat, bVol: nat, blk: nat, pau: nat)
    requires 0 < pau && 0 < blk
  {
    var sys := SystemSectors(szVol, bVol, blk, FAT16, pau);
    && MAX_FAT12 < Quot(szVol, pau) && HeadSectors(szVol, FAT16, pau) + 16 * pau <= szVol
    && sys <= szVol < sys + Prod(MAX_FAT12 + 1, pau)
  }

  /** So many clusters that the size of the FAT may wrap around are too many either way. */
  lemma Huge16(szVol: nat, bVol: nat, blk: nat, pau: nat)
    requires szVol < DWORD && bVol <= 63 && 0 < blk <= 32768 && 0 < pau <= 128 && 0x7FFF_0000 <= Quot(szVol, pau)
    ensures Many16(szVol, bVol, blk, pau) && pau <= 2 && 0x7FFF_0000 <= szVol
    ensures !Fits(szVol, bVol, blk, FAT16, pau) && !Few16(szVol, bVol, blk, pau)
    ensures 0x101_0000 + Prod(MAX_FAT16 + 1, pau) <= szVol
  {
    hide *;
    HugeSizes(szVol, pau);
    HugeIs(szVol, bVol, blk, pau);
  }

  lemma HugeSizes(szVol: nat, pau: nat)
    requires szVol < DWORD && 0 < pau <= 128 && 0x7FFF_0000 <= Quot(szVol, pau)
    ensures pau <= 2 && 0x7FFF_0000 <= Quot(szVol, pau) <= szVol
    ensures 0x101_0000 + Prod(MAX_FAT16 + 1, pau) <= szVol
    ensures 0 < Prod(MAX_FAT12 + 1, pau) <= Prod(MAX_FAT16 + 1, pau)
  {
    hide Quot, Rem, Prod;
    Divided(szVol, pau);
    QuotBounds(szVol, pau);
    HugeProduct(Quot(szVol, pau), pau);
  }

  lemma HugeProduct(q: nat, pau: nat)
    requires 0x7FFF_0000 <= q && Prod(q, pau) < DWORD
    ensures pau <= 2 && 0 <= Prod(MAX_FAT16 + 1, pau) <= 0x2_0000
    ensures 0 < pau ==> 0 < Prod(MAX_FAT12 + 1, pau) <= Prod(MAX_FAT16 + 1, pau)
  {
    if pau > 2 {
      ProdGrows(0x7FFF_0000, q, pau);
      assert false;
    }
  }

  lemma HugeIs(szVol: nat, bVol: nat, blk: nat, pau: nat)
    requires szVol < DWORD && bVol <= 63 && 0 < blk <= 32768 && 0 < pau <= 2
    requires 0x7FFF_0000 <= Quot(szVol, pau) <= szVol && 0x101_0000 + Prod(MAX_FAT16 + 1, pau) <= szVol
    requires 0 < Prod(MAX_FAT12 + 1, pau) <= Prod(MAX_FAT16 + 1, pau)
    ensures Many16(szVol, bVol, blk, pau)
    ensures !Fits(szVol, bVol, blk, FAT16, pau) && !Few16(szVol, bVol, blk, pau)
  {
    hide Quot, Rem, Multiple, Prod;
  }

  /** The number of clusters behind the system area, in 32-bit arithmetic, against both bounds. */
  lemma Clusters16(szVol: nat, sys: nat, pau: nat)
    requires szVol < DWORD && 33 <= sys <= 0x101_0000 && 0 < pau <= 128
    ensures var n := Quot(W32(szVol - sys), pau);
      && (n > MAX_FAT16 <==> szVol < sys || sys + Prod(MAX_FAT16 + 1, pau) <= szVol)
      && (n <= MAX_FAT12 <==> sys <= szVol < sys + Prod(MAX_FAT12 + 1, pau))
      && (sys <= szVol ==> n == Quot(szVol - sys, pau))
  {
    hide Quot, W32, Prod;
    Wraps(szVol - sys);
    QuotBounds(W32(szVol - sys), pau);
    if sys <= szVol {
      ClustersUpTo(szVol, sys, pau, MAX_FAT16);
      ClustersUpTo(szVol, sys, pau, MAX_FAT12);
    }
  }

  lemma Good16(szVol: nat, bVol: nat, blk: nat, pau: nat)
    requires 128 <= szVol < DWORD && bVol <= 63 && 0 < blk <= 32768 && Pow2(pau) && 0 < pau <= 128
    requires Quot(szVol, pau) < 0x7FFF_0000 && Fits(szVol, bVol, blk, Small(szVol, pau), pau)
    ensures Good(szVol, bVol, blk, LaidOut(szVol, bVol, blk, Small(szVol, pau), pau))
  {
    hide Quot, Rem, Prod, AlignUp, W32, Sub32, Pow2, Multiple, Fat12Size, Fat16Size, Room;
    var fmt := Small(szVol, pau);
    var head := HeadSectors(szVol, fmt, pau);
    var n := Sub32(AlignUp(bVol + head, blk), bVol + head);
    Sizes16(szVol, bVol, blk, pau);
    Clusters16(szVol, SystemSectors(szVol, bVol, blk, fmt, pau), pau);
    ClustersUpTo(szVol, 0, pau, MAX_FAT12);
    if fmt == FAT16 {
      GoodFat16(szVol, bVol, blk, pau, n);
    } else {
      GoodFat12(szVol, bVol, blk, pau, n);
    }
  }

  /** What the 32-bit arithmetic of one try at FAT12 or FAT16 decides. */
  lemma Decides16(szVol: nat, bVol: nat, blk: nat, pau: nat)
    requires 128 <= szVol && bVol <= 63 && bVol + szVol < DWORD && 0 < blk <= 32768 && Pow2(pau) && 0 < pau <= 128
    ensures var n0, fmt := Quot(szVol, pau), Small(szVol, pau);
      var f := if n0 > MAX_FAT12 then Fat16Size(n0) else Fat12Size(n0);
      var bData := W32(W32(bVol + 1) + f + 32);
      var n := Sub32(AlignUp(bData, blk), bData);
      var room, c := Sub32(W32(bData + pau * 16), bVol) <= szVol, Quot(W32(szVol - 1 - (f + n) - 32), pau);
      && (fmt == FAT16 ==>
            && (room && c > MAX_FAT16 <==> Many16(szVol, bVol, blk, pau))
            && (room && c <= MAX_FAT12 <==> Few16(szVol, bVol, blk, pau))
            && (room && MAX_FAT12 < c <= MAX_FAT16 <==> Fits(szVol, bVol, blk, FAT16, pau)))
      && (fmt == FAT12 ==>
            && !Many16(szVol, bVol, blk, pau) && !Few16(szVol, bVol, blk, pau)
            && (room && c <= MAX_FAT12 <==> Fits(szVol, bVol, blk, FAT12, pau)))
      && (Fits(szVol, bVol, blk, fmt, pau) ==>
            && Good(szVol, bVol, blk, LaidOut(szVol, bVol, blk, fmt, pau))
            && LaidOut(szVol, bVol, blk, fmt, pau) == Plan(fmt, pau, 1, f + n, 32, bVol + 1, c))
  {
    hide Quot, Rem, Prod, AlignUp, W32, Good, Fat12Size, Fat16Size, Sub32, Pow2, Room, Multiple, HeadSectors,
      SystemSectors;
    var n0, fmt := Quot(szVol, pau), Small(szVol, pau);
    var f := if n0 > MAX_FAT12 then Fat16Size(n0) else Fat12Size(n0);
    QuotBounds(szVol, pau);
    Fat16Fits(n0);
    if n0 <= MAX_FAT12 {
      SmallFat(n0);
    }
    NoWrap(bVol, f);
    var bData := bVol + 33 + f;
    var n := Sub32(AlignUp(bData, blk), bData);
    Padding(bData, blk);
    Sixteen(szVol, bVol, 33 + f, pau);
    Clusters16(szVol, 33 + f + n, pau);
    if n0 < 0x7FFF_0000 {
      Sizes16(szVol, bVol, blk, pau);
      ClustersUpTo(szVol, 0, pau, MAX_FAT12);
      if Fits(szVol, bVol, blk, fmt, pau) {
        Good16(szVol, bVol, blk, pau);
      }
    } else {
      Huge16(szVol, bVol, blk, pau);
    }
  }

  /** What one try at FAT12 or FAT16 comes to. */
  ghost predicate Tried16(szVol: nat, bVol: nat, blk: nat, au: nat, fat32: bool, pau: nat, s: Step)
    requires 0 < pau && 0 < blk
  {
    var fmt := Small(szVol, pau);
    && (s.Done? <==> Fits(szVol, bVol, blk, fmt, pau))
    && (s.Done? ==> s.plan == LaidOut(szVol, bVol, blk, fmt, pau))
    && if Many16(szVol, bVol, blk, pau) then
         s == if au == 0 && pau * 2 <= 64 then Again(pau * 2, FAT16) else if fat32 then Again(au, FAT32)
              else if au == 0 then Again(pau * 2, FAT16) else Aborted
       else if Few16(szVol, bVol, blk, pau) then s == if au == 0 then Again(pau * 2, FAT16) else Aborted
       else !s.Again?
  }

  /** One try at FAT12 or FAT16. */
  method TryFat(szVol: nat, bVol: nat, blk: nat, au: nat, fat32: bool) returns (s: Step)
    requires 128 <= szVol && bVol <= 63 && bVol + szVol < DWORD && Pow2(blk) && Requested(au)
    ensures s.Done? ==> Good(szVol, bVol, blk, s.plan)
    ensures s.Again? ==>
              Requested(s.au) && (s.fmt == FAT16 || (s.fmt == FAT32 && fat32)) && Tries(s.au, s.fmt) < Tries(au, FAT16)
    ensures var pau := if au == 0 then FirstSize(szVol, FAT16) else au;
      0 < pau && 0 < blk && Tried16(szVol, bVol, blk, au, fat32, pau, s)
  {
    hide Quot, Rem, Prod, AlignUp, W32, Good, Fat12Size, Fat16Size, Chosen, Sub32, Pow2, Many16, Few16, Fits, LaidOut;
    BlockSize(blk);
    var pau := au;
    if pau == 0 {
      pau := ClusterSize([1, 4, 16, 64, 256, 512, 0], szVol / 0x1000);
      Chosen16(szVol);
    }
    Positive(pau);
    DoubleSize(pau);
    Decides16(szVol, bVol, blk, pau);
    var nClst := Quot(szVol, pau);
    var szFat, fmt;
    if nClst > MAX_FAT12 {
      szFat, fmt := Fat16Size(nClst), FAT16;
    } else {
      szFat, fmt := Fat12Size(nClst), FAT12;
    }
    var bData := W32(W32(bVol + 1) + szFat + 32);
    var n := Sub32(AlignUp(bData, blk), bData);
    szFat := szFat + n;
    if szVol < Sub32(W32(bData + pau * 16), bVol) {
      return Aborted;
    }
    nClst := Quot(W32(szVol - 1 - szFat - 32), pau);
    if fmt == FAT16 {
      if nClst > MAX_FAT16 {
        if au == 0 && pau * 2 <= 64 {
          return Again(pau * 2, FAT16);
        }
        if fat32 {
          return Again(au, FAT32);
        }
        if au == 0 && pau * 2 <= 128 {
          return Again(pau * 2, FAT16);
        }
        return Aborted;
      }
      if nClst <= MAX_FAT12 {
        if au == 0 && pau * 2 <= 128 {
          return Again(pau * 2, FAT16);
        }
        return Aborted;
      }
    }
    if fmt == FAT12 && nClst > MAX_FAT12 {
      return Aborted;
    }
    s := Done(Plan(fmt, pau, 1, szFat, 32, bVol + 1, nClst));
  }

  lemma Chosen16(szVol: nat)
    ensures Chosen([1, 4, 16, 64, 256, 512, 0], szVol / 0x1000, 0, 1) == FirstSize(szVol, FAT16)
  {
  }

  // ---------------------------------------------------------------- which volumes can be laid out

  /** The first try at FAT12 or FAT16 with a size of its own choice is followed by one with the double size. */
  ghost predicate Doubled(szVol: nat, bVol: nat, blk: nat, fat32: bool)
    requires 0 < blk
  {
    var p := FirstSize(szVol, FAT16);
    0 < p && (Few16(szVol, bVol, blk, p) || Many16(szVol, bVol, blk, p))
    && !(p == 64 && fat32 && Many16(szVol, bVol, blk, p))
  }

  /** It is followed by one at FAT32 with any size. */
  ghost predicate Switched(szVol: nat, bVol: nat, blk: nat, fat32: bool)
    requires 0 < blk
  {
    FirstSize(szVol, FAT16) == 64 && fat32 && Many16(szVol, bVol, blk, 64)
  }

  /** A FAT12 or FAT16 file system with clusters of pau sectors, or where that is allowed a FAT32 one. */
  ghost predicate FitsAny(szVol: nat, bVol: nat, blk: nat, fat32: bool, pau: nat)
    requires 0 < pau && 0 < blk
  {
    || Fits(szVol, bVol, blk, FAT12, pau) || Fits(szVol, bVol, blk, FAT16, pau)
    || (fat32 && Fits(szVol, bVol, blk, FAT32, pau))
  }

  /** The volume can be laid out, with clusters of the size requested, or of any (au 0). */
  ghost predicate Formattable(szVol: nat, bVol: nat, blk: nat, au: nat, fmt: FsType, fat32: bool)
    requires 0 < blk
  {
    if fmt.FAT32? then
      if au == 0 then 0x2_0000 <= szVol || Fits(szVol, bVol, blk, FAT32, 1) else Fits(szVol, bVol, blk, FAT32, au)
    else if au != 0 then FitsAny(szVol, bVol, blk, fat32, au)
    else
      var p := FirstSize(szVol, FAT16);
      0 < p && (
      || Fits(szVol, bVol, blk, FAT12, p) || Fits(szVol, bVol, blk, FAT16, p) || Switched(szVol, bVol, blk, fat32)
      || (Doubled(szVol, bVol, blk, fat32) && FitsAny(szVol, bVol, blk, fat32, 2 * p)))
  }

  /** The cluster size that is taken. */
  ghost predicate Sized(szVol: nat, bVol: nat, blk: nat, au: nat, fmt: FsType, fat32: bool, pau: nat)
    requires 0 < blk
  {
    var p, q := FirstSize(szVol, FAT16), FirstSize(szVol, FAT32);
    if au != 0 then pau == au
    else if fmt.FAT32? || Switched(szVol, bVol, blk, fat32) then
      0 < q && pau == if Fits(szVol, bVol, blk, FAT32, q) then q else q / 2
    else 0 < p && pau == if Fits(szVol, bVol, blk, FAT12, p) || Fits(szVol, bVol, blk, FAT16, p) then p else 2 * p
  }

  /** Where there is room for FAT32, there are too many clusters for FAT16. */
  lemma Fits32Many(szVol: nat, bVol: nat, blk: nat, pau: nat)
    requires 0 < blk && 0 < pau && Fits(szVol, bVol, blk, FAT32, pau)
    ensures Many16(szVol, bVol, blk, pau) && !Fits(szVol, bVol, blk, FAT16, pau) && !Fits(szVol, bVol, blk, FAT12, pau)
  {
    hide Quot, Rem, Prod, Multiple;
    MultipleGrows(bVol + HeadSectors(szVol, FAT16, pau), bVol + HeadSectors(szVol, FAT32, pau), blk);
  }

  /** With clusters of h sectors that many sectors do for FAT32. */
  lemma Enough32(szVol: nat, bVol: nat, blk: nat, h: nat)
    requires szVol < DWORD && bVol <= 63 && 0 < blk <= 32768 && 1 <= h <= 32
    requires h * 0x2_0000 <= szVol && (h == 32 || szVol < h * 0x4_0000)
    ensures Fits(szVol, bVol, blk, FAT32, h)
  {
    hide Rem, Quot, Multiple;
    ClustersUpTo(szVol, 0, h, MAX_FAT16);
    ClustersUpTo(szVol, 0, h, 0x3_FFFF);
    ClustersUpTo(szVol, 0, h, 0x7FF_FFFF);
    if h == 32 {
      Divided(szVol, 32);
    }
  }

  /** With twice that size there are enough clusters at first sight. */
  lemma Almost32(szVol: nat, bVol: nat, blk: nat, q: nat)
    requires szVol < DWORD && bVol <= 63 && 0 < blk <= 32768 && 2 <= q <= 64
    requires q * 0x1_0000 <= szVol && (q == 64 || szVol < q * 0x2_0000)
    ensures Fits(szVol, bVol, blk, FAT32, q) || Few32(szVol, bVol, blk, q)
  {
    hide Rem, Quot, Multiple, SystemSectors;
    ClustersUpTo(szVol, 0, q, MAX_FAT16);
    ClustersUpTo(szVol, 0, q, 0x1_FFFF);
    ClustersUpTo(szVol, 0, q, 0x3FF_FFFF);
    if q == 64 {
      Divided(szVol, 64);
    }
  }

  /** From 64 MiB on a size of its own choice does for FAT32, if need be the half of it. */
  lemma Auto32(szVol: nat, bVol: nat, blk: nat)
    requires 0x2_0000 <= szVol < DWORD && bVol <= 63 && 0 < blk <= 32768
    ensures var q := FirstSize(szVol, FAT32);
      && 2 <= q && (Fits(szVol, bVol, blk, FAT32, q) || Few32(szVol, bVol, blk, q))
      && (Fits(szVol, bVol, blk, FAT32, q) || Fits(szVol, bVol, blk, FAT32, q / 2))
  {
    hide Fits, Few32;
    var q := FirstSize(szVol, FAT32);
    Enough32(szVol, bVol, blk, q / 2);
    Almost32(szVol, bVol, blk, q);
  }

  /** A try with cluster size a (0: any) at FAT16 (or FAT12) or FAT32 that f_mkfs() may come to. */
  ghost predicate Reached(szVol: nat, bVol: nat, blk: nat, au: nat, fmt: FsType, fat32: bool, a: nat, f: FsType)
    requires 0 < blk
  {
    var p, q := FirstSize(szVol, FAT16), FirstSize(szVol, FAT32);
    || (a == au && f == fmt)
    || (au == 0 && (fmt.FAT32? || Switched(szVol, bVol, blk, fat32)) && f.FAT32?
        && (a == 0 || (a == q / 2 && 2 <= q && Few32(szVol, bVol, blk, q))))
    || (!fmt.FAT32? && au != 0 && f.FAT32? && a == au && fat32 && Many16(szVol, bVol, blk, au))
    || (!fmt.FAT32? && au == 0 && Doubled(szVol, bVol, blk, fat32) && a == 2 * p && 0 < p
        && (f == FAT16 || (f.FAT32? && fat32 && Many16(szVol, bVol, blk, a))))
  }

  /** FAT12, FAT16, and too many or too few clusters for the latter exclude each other. */
  lemma OneOf(szVol: nat, bVol: nat, blk: nat, pau: nat)
    requires 0 < blk && 0 < pau
    ensures Fits(szVol, bVol, blk, FAT12, pau) ==> Small(szVol, pau) == FAT12
    ensures Fits(szVol, bVol, blk, FAT16, pau) ==>
              Small(szVol, pau) == FAT16 && !Many16(szVol, bVol, blk, pau) && !Few16(szVol, bVol, blk, pau)
    ensures Many16(szVol, bVol, blk, pau) || Few16(szVol, bVol, blk, pau) ==>
              Small(szVol, pau) == FAT16 && !Fits(szVol, bVol, blk, FAT12, pau)
    ensures Fits(szVol, bVol, blk, FAT32, pau) ==> Many16(szVol, bVol, blk, pau)
    ensures Few32(szVol, bVol, blk, pau) ==> !Fits(szVol, bVol, blk, FAT32, pau)
    ensures Many16(szVol, bVol, blk, pau) ==> !Few16(szVol, bVol, blk, pau)
  {
    hide Quot, SystemSectors, HeadSectors;
    if Fits(szVol, bVol, blk, FAT32, pau) {
      Fits32Many(szVol, bVol, blk, pau);
    }
  }

  /** With so many clusters of 64 sectors the volume has 64 MiB. */
  lemma SwitchedIsLarge(szVol: nat, bVol: nat, blk: nat, fat32: bool)
    requires 0 < blk && Switched(szVol, bVol, blk, fat32)
    ensures 0x2_0000 <= szVol
  {
    hide Many16;
  }

  /** What comes of a try at FAT32. */
  lemma After32(szVol: nat, bVol: nat, blk: nat, au: nat, fmt: FsType, fat32: bool, a: nat, s: Step)
    requires 128 <= szVol < DWORD && bVol <= 63 && 0 < blk <= 32768 && Requested(au) && (fmt == FAT32 || fmt == FAT16)
    requires Reached(szVol, bVol, blk, au, fmt, fat32, a, FAT32)
    requires var pau := if a == 0 then FirstSize(szVol, FAT32) else a;
      && 0 < pau && (s.Done? <==> Fits(szVol, bVol, blk, FAT32, pau))
      && (s.Done? ==> s.plan == LaidOut(szVol, bVol, blk, FAT32, pau))
      && (s.Again? <==> a == 0 && 2 <= pau && Few32(szVol, bVol, blk, pau)) && (s.Again? ==> s.au == pau / 2)
    ensures s.Done? ==>
              && Formattable(szVol, bVol, blk, au, fmt, fat32) && 0 < s.plan.pau
              && Fits(szVol, bVol, blk, s.plan.fmt, s.plan.pau)
              && s.plan == LaidOut(szVol, bVol, blk, s.plan.fmt, s.plan.pau)
              && Sized(szVol, bVol, blk, au, fmt, fat32, s.plan.pau)
    ensures s.Aborted? ==> !Formattable(szVol, bVol, blk, au, fmt, fat32)
    ensures s.Again? ==> Reached(szVol, bVol, blk, au, fmt, fat32, s.au, FAT32)
  {
    hide Fits, Few32, Few16, Many16, LaidOut, Pow2, Quot;
    var p, q, pau := FirstSize(szVol, FAT16), FirstSize(szVol, FAT32), if a == 0 then FirstSize(szVol, FAT32) else a;
    OneOf(szVol, bVol, blk, pau);
    OneOf(szVol, bVol, blk, q);
    if 0 < p {
      OneOf(szVol, bVol, blk, p);
      OneOf(szVol, bVol, blk, 2 * p);
    }
    if Switched(szVol, bVol, blk, fat32) {
      SwitchedIsLarge(szVol, bVol, blk, fat32);
    }
    if 0x2_0000 <= szVol {
      Auto32(szVol, bVol, blk);
    }
  }

  /** What comes of a try at FAT12 or FAT16. */
  lemma After16(szVol: nat, bVol: nat, blk: nat, au: nat, fmt: FsType, fat32: bool, a: nat, s: Step)
    requires 128 <= szVol < DWORD && bVol <= 63 && 0 < blk <= 32768 && Requested(au) && (fmt == FAT32 || fmt == FAT16)
    requires Reached(szVol, bVol, blk, au, fmt, fat32, a, FAT16)
    requires var pau := if a == 0 then FirstSize(szVol, FAT16) else a;
      0 < pau && Tried16(szVol, bVol, blk, a, fat32, pau, s)
    ensures s.Done? ==>
              && Formattable(szVol, bVol, blk, au, fmt, fat32) && 0 < s.plan.pau
              && Fits(szVol, bVol, blk, s.plan.fmt, s.plan.pau)
              && s.plan == LaidOut(szVol, bVol, blk, s.plan.fmt, s.plan.pau)
              && Sized(szVol, bVol, blk, au, fmt, fat32, s.plan.pau)
    ensures s.Aborted? ==> !Formattable(szVol, bVol, blk, au, fmt, fat32)
    ensures s.Again? ==> Reached(szVol, bVol, blk, au, fmt, fat32, s.au, s.fmt)
  {
    hide Fits, Few32, Few16, Many16, LaidOut, Pow2, Quot;
    var p, pau := FirstSize(szVol, FAT16), if a == 0 then FirstSize(szVol, FAT16) else a;
    OneOf(szVol, bVol, blk, pau);
    if 0 < p {
      OneOf(szVol, bVol, blk, p);
      OneOf(szVol, bVol, blk, 2 * p);
    }
  }

  /** Only a FAT12 volume can have no cluster, if it is smaller than system area and one cluster. */
  lemma Emptiness(szVol: nat, bVol: nat, blk: nat, fmt: FsType, pau: nat)
    requires 0 < blk && 0 < pau && Fits(szVol, bVol, blk, fmt, pau)
    ensures LaidOut(szVol, bVol, blk, fmt, pau).nClst == 0
       <==> fmt == FAT12 && szVol < SystemSectors(szVol, bVol, blk, FAT12, pau) + pau
  {
    hide Quot, SystemSectors, HeadSectors, Room, Multiple;
    var sys := SystemSectors(szVol, bVol, blk, fmt, pau);
    ClustersUpTo(szVol, sys, pau, 0);
  }

  /** The layout of a new FAT volume, None if f_mkfs() gives up.  fmt is the sub-type it starts with; it may
      end with FAT12, or with FAT32 if the caller allows that. */
  method PlanVolume(szVol: nat, bVol: nat, blk: nat, au: nat, fmt: FsType, fat32: bool) returns (r: Option<Plan>)
    requires 128 <= szVol && bVol <= 63 && bVol + szVol < DWORD && Pow2(blk) && Requested(au)
    requires fmt == FAT32 || fmt == FAT16
    ensures 0 < blk && (r.Some? <==> Formattable(szVol, bVol, blk, au, fmt, fat32))
    ensures r.Some? ==> var p := r.value;
      && 0 < p.pau && Sized(szVol, bVol, blk, au, fmt, fat32, p.pau) && Fits(szVol, bVol, blk, p.fmt, p.pau)
      && p == LaidOut(szVol, bVol, blk, p.fmt, p.pau) && Good(szVol, bVol, blk, p)
      && (p.nClst == 0 <==> p.fmt == FAT12 && szVol < SystemSectors(szVol, bVol, blk, FAT12, p.pau) + p.pau)
  {
    hide Quot, Good, Chosen, Pow2, Reached, Formattable, Sized, Fits, LaidOut, Tried16, Few32;
    BlockSize(blk);
    var a, f := au, fmt;
    AtFirst(szVol, bVol, blk, au, fmt, fat32);
    while true
      invariant Requested(a) && (f == FAT32 || f == FAT16)
      invariant Reached(szVol, bVol, blk, au, fmt, fat32, a, f)
      decreases Tries(a, f)
    {
      var s;
      if f == FAT32 {
        s := TryFat32(szVol, bVol, blk, a);
        After32(szVol, bVol, blk, au, fmt, fat32, a, s);
      } else {
        s := TryFat(szVol, bVol, blk, a, fat32);
        After16(szVol, bVol, blk, au, fmt, fat32, a, s);
      }
      match s
      case Done(p) =>
        Emptiness(szVol, bVol, blk, p.fmt, p.pau);
        return Some(p);
      case Aborted => return None;
      case Again(a', f') => a, f := a', f';
    }
  }

  lemma AtFirst(szVol: nat, bVol: nat, blk: nat, au: nat, fmt: FsType, fat32: bool)
    requires 0 < blk
    ensures Reached(szVol, bVol, blk, au, fmt, fat32, au, fmt)
  {
  }

  // ---------------------------------------------------------------- format, then mount

  /** The boot record f_mkfs() writes for a plan: every field is cut to its width. */
  function BootRecord(szVol: nat, p: Plan): Bpb {
    Bpb(512, p.pau % 0x100, p.szRsv % WORD, 1, if p.fmt.FAT32? then 0 else 512,
        if szVol < 0x1_0000 then szVol % WORD else 0, if p.fmt.FAT32? then 0 else p.szFat % WORD,
        if szVol < 0x1_0000 then 0 else szVol % DWORD, if p.fmt.FAT32? then p.szFat % DWORD else 0, 0)
  }

  lemma FieldsFit(szVol: nat, bVol: nat, blk: nat, p: Plan)
    requires 128 <= szVol < DWORD && 0 < blk && Good(szVol, bVol, blk, p)
    ensures var b := BootRecord(szVol, p);
      && 0 < b.secPerClus == p.pau && b.rsvdSecCnt == p.szRsv && b.bytsPerSec == 512 && b.numFats == 1 && b.fsVer32 == 0
      && b.rootEntCnt == 16 * p.szDir
      && (if b.totSec16 == 0 then b.totSec32 else b.totSec16) == szVol
      && (if b.fatSz16 == 0 then b.fatSz32 else b.fatSz16) == p.szFat
  {
    hide Quot, Rem, FatCodes.Bytes;
    assert p.szFat < DWORD;
  }

  /** Formatting and mounting agree, but for a volume without any cluster: f_mkfs() makes it, and
      find_volume() refuses it.  Otherwise the volume is mounted with the same sub-type and number of
      clusters, its data area starts at an erase block, FAT and data area lie behind each other inside the
      volume, and the FAT has room for all entries. */
  lemma FormattedMounts(szVol: nat, bVol: nat, blk: nat, p: Plan)
    requires 128 <= szVol && bVol <= 63 && bVol + szVol < DWORD && Pow2(blk) && Good(szVol, bVol, blk, p)
    ensures Mount(BootRecord(szVol, p), bVol).Some? <==> p.szRsv + p.szFat + p.szDir + p.pau <= szVol
    ensures Mount(BootRecord(szVol, p), bVol).Some? <==> p.nClst != 0
    ensures p.nClst != 0 ==>
              var m := Mount(BootRecord(szVol, p), bVol).value;
              && m.fsType == p.fmt && m.nFats == 1 && m.nFatEnt == p.nClst + 2 && 0 < m.cSize == p.pau
              && m.fatBase == p.bFat && m.fSize == p.szFat && m.fatBase + m.fSize + p.szDir == m.dataBase
              && Rem(m.dataBase, blk) == 0
              && bVol < m.fatBase && m.dataBase + Prod(p.nClst, m.cSize) <= bVol + szVol
              && Bytes(m.fsType, m.nFatEnt) <= m.fSize * 512
  {
    hide Quot, Rem, Prod, BootRecord, Pow2, W32;
    FieldsFit(szVol, bVol, blk, p);
    var sys := p.szRsv + p.szFat + p.szDir;
    Divided(szVol - sys, p.pau);
    InRange(szVol - sys, 1, p.pau);
    OneMore(0, p.pau);
    NoClusters(p.pau);
    var need := Bytes(p.fmt, p.nClst + 2);
    assert need <= (MAX_FAT32 + 2) * 4;
    Wraps(need);
    Wraps(need + 511);
    Wraps(p.szFat);
    Wraps(sys);
    Wraps(bVol + p.szRsv);
    Wraps(bVol + sys);
    assert p.szFat * BootRecord(szVol, p).numFats == p.szFat;
  }

  /** A volume of 128 sectors on a device with erase blocks of 128 sectors has no cluster. */
  method FormatsToNothing() returns (r: Option<Plan>)
    ensures r.Some? && r.value.nClst == 0 && Mount(BootRecord(128, r.value), 0) == None
  {
    hide Mount, BootRecord, Good, Formattable, Sized, Fits, LaidOut, SystemSectors;
    SmallestFits();
    assert Pow2(128) && Requested(1);
    r := PlanVolume(128, 0, 128, 1, FAT16, false);
    SizedAs(128, 0, 128, 1, FAT16, false, r.value.pau);
    FormattedMounts(128, 0, 128, r.value);
  }

  lemma SizedAs(szVol: nat, bVol: nat, blk: nat, au: nat, fmt: FsType, fat32: bool, pau: nat)
    requires 0 < blk && au != 0 && Sized(szVol, bVol, blk, au, fmt, fat32, pau)
    ensures pau == au
  {
  }

  lemma SmallestFits()
    ensures SystemSectors(128, 0, 128, FAT12, 1) == 128 && Formattable(128, 0, 128, 1, FAT16, false)
    ensures forall fmt | Fits(128, 0, 128, fmt, 1) :: fmt == FAT12
  {
    hide Rem, Multiple;
    assert Quot(128, 1) == 128;
    Unique(1, 0, 128);
    assert HeadSectors(128, FAT12, 1) == 34;
    OneMultiple(34, 128, 128);
  }

  // ---------------------------------------------------------------- which volumes are sound

  /** Every field fits its place in the boot record. */
  predicate Stored(b: Bpb) {
    && b.secPerClus < 0x100 && b.numFats < 0x100
    && b.bytsPerSec < WORD && b.rsvdSecCnt < WORD && b.rootEntCnt < WORD && b.totSec16 < WORD && b.fatSz16 < WORD
    && b.totSec32 < DWORD && b.fatSz32 < DWORD
  }

  function FatSectors(b: Bpb): nat {
    if b.fatSz16 == 0 then b.fatSz32 else b.fatSz16
  }

  function TotalSectors(b: Bpb): nat {
    if b.totSec16 == 0 then b.totSec32 else b.totSec16
  }

  /** The sub-type of a volume with n clusters. */
  function TypeOf(n: nat): FsType {
    if n <= MAX_FAT12 then FAT12 else if n <= MAX_FAT16 then FAT16 else FAT32
  }

  /** The record describes a volume with n clusters: those that fit behind the system area, the size of which wraps
      around at 32 bits, and the FAT has room for them. */
  ghost predicate Describes(b: Bpb, n: nat) {
    var sys := W32(b.rsvdSecCnt + FatSectors(b) * b.numFats + b.rootEntCnt / 16);
    && b.bytsPerSec == 512 && (b.numFats == 1 || b.numFats == 2) && Pow2(b.secPerClus)
    && b.rsvdSecCnt != 0 && b.rootEntCnt % 16 == 0 && 1 <= n <= MAX_FAT32
    && sys + Prod(n, b.secPerClus) <= TotalSectors(b) < sys + Prod(n + 1, b.secPerClus)
    && Room(TypeOf(n), n + 2) <= FatSectors(b)
    && if n > MAX_FAT16 then b.rootEntCnt == 0 && b.fsVer32 == 0 else b.rootEntCnt != 0
  }

  /** The size of the system area is cut to 32 bits once or twice. */
  lemma CutOnce(s: nat, rsv: nat, fats: nat, root: nat)
    ensures W32(rsv + W32(fats) + root) == W32(rsv + fats + root)
    ensures W32(s + W32(rsv + fats + root)) == W32(s + rsv + fats + root)
  {
  }

  /** find_volume() accepts just the records that describe a volume, and finds its number of clusters. */
  lemma MountedJust(b: Bpb, bsect: nat, n: nat)
    requires Stored(b) && bsect < DWORD
    ensures Describes(b, n) <==>
            Mount(b, bsect).Some? && Mount(b, bsect).value.nFatEnt == n + 2
    ensures Describes(b, n) ==> var m := Mount(b, bsect).value;
      && m.fsType == TypeOf(n) && m.nFats == b.numFats && m.cSize == b.secPerClus && m.fSize == FatSectors(b)
      && m.volBase == bsect && m.fatBase == W32(bsect + b.rsvdSecCnt)
      && m.dataBase == W32(bsect + b.rsvdSecCnt + FatSectors(b) * b.numFats + b.rootEntCnt / 16)
  {
    hide Quot, Prod, FatCodes.Bytes, W32, Pow2;
    var fats, root := FatSectors(b) * b.numFats, b.rootEntCnt / 16;
    CutOnce(bsect, b.rsvdSecCnt, fats, root);
    var sys := W32(b.rsvdSecCnt + fats + root);
    if Pow2(b.secPerClus) && sys <= TotalSectors(b) {
      Positive(b.secPerClus);
      InRange(TotalSectors(b) - sys, n, b.secPerClus);
      InRange(TotalSectors(b) - sys, n + 1, b.secPerClus);
    }
    if n <= MAX_FAT32 {
      EntriesStored(TypeOf(n), n + 2);
    }
  }

  /** fs is the volume that find_volume() made of m. */
  ghost predicate IsMount(fs: FatFs, m: Mounted) {
    m == Mounted(fs.fsType, fs.nFats, fs.cSize, fs.nFatEnt, fs.fSize, m.volBase, fs.fatBase, fs.dataBase)
  }

  /** The data area is taken to begin behind FATs and root directory just when these do not reach 2^32. */
  lemma DataFollows(bsect: nat, rsv: nat, fats: nat, root: nat)
    requires bsect < DWORD && rsv < WORD && root < WORD && fats < 2 * DWORD
    ensures var f, d := W32(bsect + rsv), W32(bsect + W32(rsv + W32(fats) + root));
      && (f + fats <= d <==> f + fats + root < DWORD)
      && (f + fats + root < DWORD ==> d == f + fats + root)
  {
    hide W32;
    var sum := rsv + W32(fats) + root;
    Wraps(fats);
    Wraps(fats - DWORD);
    Wraps(sum);
    Wraps(sum - DWORD);
    Wraps(bsect + rsv);
    Wraps(bsect + rsv - DWORD);
    Wraps(bsect + W32(sum));
    Wraps(bsect + W32(sum) - DWORD);
  }

  /** A mounted volume has the shape that the rest of the file system relies on, just when from the sector where the
      FAT is taken to begin its FATs, root directory and clusters end on the device; find_volume() does not ask. */
  lemma MountedShape(b: Bpb, bsect: nat, fs: FatFs, m: Mounted)
    requires Stored(b) && bsect < DWORD && Mount(b, bsect) == Some(m) && IsMount(fs, m)
    requires fs.win.Length == 512 && fs.disk.size < INVALID
    ensures fs.Shape() <==>
            m.fatBase + FatSectors(b) * b.numFats + b.rootEntCnt / 16 + Prod(m.nFatEnt - 2, m.cSize) <= fs.disk.size
  {
    hide Quot, Rem, Prod, Pow2, W32, FatFs.SectorOf, FatCodes.Bytes;
    var fats := FatSectors(b) * b.numFats;
    assert fats == if b.numFats == 1 then FatSectors(b) else 2 * FatSectors(b);
    DataFollows(bsect, b.rsvdSecCnt, fats, b.rootEntCnt / 16);
    EntriesStored(m.fsType, m.nFatEnt);
    Positive(b.secPerClus);
    SectorOfIsProduct(fs, fs.nFatEnt);
    ProdTurned(m.nFatEnt - 2, m.cSize);
  }

  lemma EntriesStored(t: FsType, n: nat)
    requires n <= MAX_FAT32 + 2
    ensures W32(W32(Bytes(t, n)) + 511) == Bytes(t, n) + 511
  {
    hide W32;
    Wraps(Bytes(t, n));
    Wraps(Bytes(t, n) + 511);
  }

  /** Two FATs of a tebibyte each, whose number of sectors wraps around to 2. */
  lemma WrapsToNothing()
    ensures var b := Bpb(512, 1, 32, 2, 0, 0, 0, 1_000_000, 0x8000_0001, 0);
      && Stored(b) && b.rsvdSecCnt + FatSectors(b) * b.numFats == 0x1_0000_0022
      && Mount(b, 0) == Some(Mounted(FAT32, 2, 1, 999_968, 0x8000_0001, 0, 32, 34))
  {
    hide Quot;
    Unique(999_966, 0, 1);
  }

  /** A mounted volume of the new layout has that shape. */
  lemma FormattedShape(szVol: nat, bVol: nat, blk: nat, p: Plan, fs: FatFs)
    requires 128 <= szVol && bVol <= 63 && bVol + szVol < DWORD && Pow2(blk) && Good(szVol, bVol, blk, p)
    requires p.nClst != 0 && bVol + szVol <= fs.disk.size < INVALID && fs.win.Length == 512
    requires Mount(BootRecord(szVol, p), bVol)
          == Some(Mounted(fs.fsType, fs.nFats, fs.cSize, fs.nFatEnt, fs.fSize, bVol, fs.fatBase, fs.dataBase))
    ensures fs.Shape()
  {
    hide Quot, Rem, Prod, Pow2, Mount, BootRecord, FatFs.SectorOf;
    FormattedMounts(szVol, bVol, blk, p);
    SectorOfIsProduct(fs, fs.nFatEnt);
    ProdTurned(p.nClst, fs.cSize);
  }

  lemma ProdTurned(a: nat, b: nat)
    ensures Prod(a, b) == Prod(b, a)
  {
  }
}
