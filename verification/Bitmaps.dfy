/** The exFAT allocation bitmap: one bit for each cluster, from cluster 2 on, at the start of the data
    area (exFAT file system specification, section 7.1.5). */
module Bitmaps {
  import opened Disks
  import opened Volumes

  /** b & (1 << i) */
  function Bit(b: nat, i: nat): bool {
    if i == 0 then b % 2 == 1 else Bit(b / 2, i - 1)
  }

  /** b ^ (1 << i) */
  function Flip(b: nat, i: nat): nat {
    if i == 0 then if b % 2 == 1 then b - 1 else b + 1
    else 2 * Flip(b / 2, i - 1) + b % 2
  }

  function Power2(k: nat): (p: nat)
    ensures 0 < p
  {
    if k == 0 then 1 else 2 * Power2(k - 1)
  }

  lemma {:induction false} FlipFits(b: nat, i: nat, k: nat)
    requires i < k && b < Power2(k)
    ensures Flip(b, i) < Power2(k)
  {
    var half := Power2(k - 1);
    assert Power2(k) == 2 * half;
    if i > 0 {
      FlipFits(b / 2, i - 1, k - 1);
      assert Flip(b / 2, i - 1) <= half - 1;
    }
  }

  lemma {:induction false} FlipBit(b: nat, i: nat, j: nat)
    ensures Bit(Flip(b, i), j) == if i == j then !Bit(b, i) else Bit(b, j)
  {
    if i > 0 && j > 0 {
      FlipBit(b / 2, i - 1, j - 1);
    }
  }

  lemma FlipByte(b: byte, i: nat)
    requires i < 8
    ensures Flip(b, i) < 256
  {
    assert Power2(3) == 8;
    assert Power2(6) == 64;
    FlipFits(b, i, 8);
  }

  // ---------------------------------------------------------------- the bitmap on the disk

  ghost predicate InBitmap(fs: FatFs, s: int)
    requires fs.Shape()
  {
    fs.dataBase <= s <= fs.dataBase + (fs.nFatEnt - 3) / 8 / 512
  }

  lemma {:induction false} ClustersApart(fs: FatFs, c: nat)
    requires 1 <= fs.cSize && 2 <= c
    ensures fs.SectorOf(c) >= fs.dataBase + (c - 2)
  {
    if c > 2 {
      ClustersApart(fs, c - 1);
    }
  }

  lemma BitmapOnDisk(fs: FatFs)
    requires fs.Shape()
    ensures fs.dataBase + (fs.nFatEnt - 3) / 8 / 512 < fs.disk.size
  {
    ClustersApart(fs, fs.nFatEnt);
  }

  /** Bit number k of the bitmap on the disk l. */
  ghost function BitAt(fs: FatFs, l: seq<Sector>, k: nat): bool
    requires fs.Shape() && |l| == fs.disk.size && k < fs.nFatEnt - 2
  {
    BitmapOnDisk(fs);
    Bit(l[fs.dataBase + k / 8 / 512][k / 8 % 512], k % 8)
  }

  /** For every cluster, whether the bitmap says that it is in use (entries 0 and 1 are no clusters). */
  ghost function Bits(fs: FatFs, l: seq<Sector>): (u: seq<bool>)
    requires fs.Shape() && |l| == fs.disk.size
    ensures |u| == fs.nFatEnt
  {
    seq(fs.nFatEnt, c requires 0 <= c < fs.nFatEnt => c < 2 || BitAt(fs, l, c - 2))
  }

  /** Changing sectors outside the bitmap leaves every bit alone. */
  lemma BitsFrame(fs: FatFs, l: seq<Sector>, m: seq<Sector>)
    requires fs.Shape() && |l| == |m| == fs.disk.size
    requires forall s | 0 <= s < fs.disk.size && InBitmap(fs, s) :: l[s] == m[s]
    ensures Bits(fs, l) == Bits(fs, m)
  {
    forall k | 0 <= k < fs.nFatEnt - 2
      ensures BitAt(fs, l, k) == BitAt(fs, m, k)
    {
      BitmapOnDisk(fs);
      assert InBitmap(fs, fs.dataBase + k / 8 / 512);
    }
  }

  /** c comes before r on the way up from `start`, around the end of the table. */
  ghost predicate Before(start: int, c: int, r: int) {
    if start <= r then start <= c < r else c >= start || c < r
  }

  /** The clusters from start + 2 up to val + 2, around the end of the table, are all in use. */
  ghost predicate Seen(u: seq<bool>, start: nat, val: nat, wrapped: bool) {
    forall c | 2 <= c < |u| && (if wrapped then c >= start + 2 || c < val + 2 else start + 2 <= c < val + 2) :: u[c]
  }

  /** Number of bits seen. */
  ghost function Scanned(n: nat, start: nat, val: nat, wrapped: bool): int {
    if wrapped then n - start + val else val - start
  }

  /** Where the window may be after looking at the bitmap. */
  ghost predicate WindowAtBitmap(fs: FatFs, was: nat)
    requires fs.Shape()
    reads fs`winSect
  {
    fs.winSect == was || fs.winSect == INVALID || InBitmap(fs, fs.winSect)
  }

  /** Move the window to the bitmap sector that holds bit number k. */
  method ShowBitmap(fs: FatFs, k: nat) returns (res: FResult)
    requires fs.Valid() && fs.fsType.EXFAT? && k < fs.nFatEnt - 2
    modifies fs`wFlag, fs`winSect, fs.win, fs.disk`sec, fs.disk`script
    ensures fs.Valid() && fs.Logical() == old(fs.Logical())
    ensures res.OK? || res.DiskErr?
    ensures res.OK? ==> fs.winSect == fs.dataBase + k / 8 / 512 < fs.disk.size && fs.win[..] == fs.Logical()[fs.winSect]
    ensures WindowAtBitmap(fs, old(fs.winSect))
    ensures |old(fs.disk.script)| == 0 ==> |fs.disk.script| == 0 && res.OK?
  {
    BitmapOnDisk(fs);
    res := fs.MoveWindow(fs.dataBase + k / 8 / 512);
  }

  /** find_bitmap() for one cluster: the first free cluster from `clst` on, around the end of the bitmap;
      0 when there is none. */
  method FindBitmap(fs: FatFs, clst: nat) returns (r: nat)
    requires fs.Valid() && fs.fsType.EXFAT?
    modifies fs`wFlag, fs`winSect, fs.win, fs.disk`sec, fs.disk`script
    ensures fs.Valid() && fs.Logical() == old(fs.Logical())
    ensures r == INVALID || Found(Bits(fs, fs.Logical()), if 2 <= clst < fs.nFatEnt then clst - 2 else 0, r)
    ensures WindowAtBitmap(fs, old(fs.winSect))
    ensures |old(fs.disk.script)| == 0 ==> |fs.disk.script| == 0 && r != INVALID
  {
    ghost var u := Bits(fs, fs.Logical());
    var start := if 2 <= clst < fs.nFatEnt then clst - 2 else 0;
    var val: nat := start;
    ghost var wrapped := false;
    while true
      invariant fs.Valid() && fs.Logical() == old(fs.Logical())
      invariant start < fs.nFatEnt - 2 && val < fs.nFatEnt - 2
      invariant if wrapped then val < start else start <= val
      invariant Seen(u, start, val, wrapped)
      invariant WindowAtBitmap(fs, old(fs.winSect))
      invariant |old(fs.disk.script)| == 0 ==> |fs.disk.script| == 0
      decreases fs.nFatEnt - Scanned(fs.nFatEnt - 2, start, val, wrapped)
    {
      var res := ShowBitmap(fs, val);
      if !res.OK? {
        return INVALID;
      }
      var done;
      done, r, val, wrapped := ScanSector(fs, start, val, wrapped);
      if done {
        return;
      }
    }
  }

  /** The two inner loops of find_bitmap(): scan the bitmap sector in the window from bit number val0. */
  method ScanSector(fs: FatFs, start: nat, val0: nat, ghost wrapped0: bool)
    returns (done: bool, r: nat, val: nat, ghost wrapped: bool)
    requires fs.Valid() && fs.fsType.EXFAT?
    requires start < fs.nFatEnt - 2 && val0 < fs.nFatEnt - 2
    requires if wrapped0 then val0 < start else start <= val0
    requires fs.winSect == fs.dataBase + val0 / 8 / 512 < fs.disk.size && fs.win[..] == fs.Logical()[fs.winSect]
    requires Seen(Bits(fs, fs.Logical()), start, val0, wrapped0)
    ensures done ==> Found(Bits(fs, fs.Logical()), start, r)
    ensures !done ==> val < fs.nFatEnt - 2 && Seen(Bits(fs, fs.Logical()), start, val, wrapped)
    ensures !done ==> if wrapped then val < start else start <= val
    ensures !done ==> Scanned(fs.nFatEnt - 2, start, val, wrapped) > Scanned(fs.nFatEnt - 2, start, val0, wrapped0)
  {
    ghost var u := Bits(fs, fs.Logical());
    done, r, val, wrapped := false, 0, val0, wrapped0;
    var n := fs.nFatEnt - 2;
    ghost var sec := val0 / 8 / 512;
    var i: nat, b: nat := val0 / 8 % 512, val0 % 8;
    while i < 512
      invariant i < 512 ==> b < 8 && val == sec * 4096 + i * 8 + b
      invariant val < n && Seen(u, start, val, wrapped)
      invariant if wrapped then val < start else start <= val
      invariant Scanned(n, start, val, wrapped) >= Scanned(n, start, val0, wrapped0) + (if i < 512 then 0 else 1)
      decreases 512 - i
    {
      forall j | b <= j < 8 && val + (j - b) < n
        ensures u[val + (j - b) + 2] == Bit(fs.win[i], j)
      {
        BitHere(fs, val + (j - b), sec, i, j);
      }
      var turned;
      done, r, val, turned, wrapped := ScanByte(fs.win[i], u, n, start, val, b, wrapped);
      if done {
        return;
      }
      b, i := 0, if turned then 512 else i + 1;
    }
  }

  ghost predicate AllUsed(u: seq<bool>) {
    forall c | 2 <= c < |u| :: u[c]
  }

  /** The scan has an answer: r is the first cluster not in use from start + 2 on, or 0 when all are. */
  ghost predicate Found(u: seq<bool>, start: nat, r: nat) {
    if r == 0 then AllUsed(u)
    else 2 <= r < |u| && !u[r] && forall c | 2 <= c < |u| && Before(start + 2, c, r) :: u[c]
  }

  /** The innermost loop: bits b0 .. 7 of the byte x, which are those of clusters val0 + 2 on. */
  method ScanByte(x: byte, ghost u: seq<bool>, n: nat, start: nat, val0: nat, b0: nat, ghost wrapped0: bool)
    returns (done: bool, r: nat, val: nat, turned: bool, ghost wrapped: bool)
    requires |u| == n + 2 && start < n && val0 < n && b0 < 8
    requires if wrapped0 then val0 < start else start <= val0
    requires forall j | b0 <= j < 8 && val0 + (j - b0) < n :: u[val0 + (j - b0) + 2] == Bit(x, j)
    requires Seen(u, start, val0, wrapped0)
    ensures done ==> Found(u, start, r)
    ensures !done ==> val < n && Seen(u, start, val, wrapped)
    ensures !done ==> if wrapped then val < start else start <= val
    ensures !done && !turned ==> val == val0 + (8 - b0) && wrapped == wrapped0
    ensures !done ==> Scanned(n, start, val, wrapped) > Scanned(n, start, val0, wrapped0)
  {
    done, r, val, turned, wrapped := false, 0, val0, false, wrapped0;
    var b := b0;
    while b < 8
      invariant b0 <= b <= 8
      invariant !turned ==> val == val0 + (b - b0) && wrapped == wrapped0
      invariant turned ==> b == 8
      invariant val < n && Seen(u, start, val, wrapped)
      invariant if wrapped then val < start else start <= val
      invariant Scanned(n, start, val, wrapped) >= Scanned(n, start, val0, wrapped0) + (if b == b0 then 0 else 1)
    {
      var bv := Bit(x, b);
      assert u[val0 + (b - b0) + 2] == bv;
      var scl := val;
      b, val := b + 1, val + 1;
      if val >= n {
        val, b, turned, wrapped := 0, 8, true, true;
      }
      if !bv {
        return true, scl + 2, val, turned, wrapped;
      }
      if val == start {
        return true, 0, val, turned, wrapped;
      }
    }
  }

  lemma BitHere(fs: FatFs, val: nat, sec: nat, i: nat, b: nat)
    requires fs.Valid() && val < fs.nFatEnt - 2 && i < 512 && b < 8
    requires val == sec * 4096 + i * 8 + b
    requires fs.winSect == fs.dataBase + sec < fs.disk.size && fs.win[..] == fs.Logical()[fs.winSect]
    ensures Bits(fs, fs.Logical())[val + 2] == Bit(fs.win[i], b)
  {
    BitmapOnDisk(fs);
    assert val / 8 == sec * 512 + i;
    assert BitAt(fs, fs.Logical(), val) == Bit(fs.win[i], b);
  }

  // ---------------------------------------------------------------- changing the bitmap

  /** u with the entries lo .. hi - 1 set to bv. */
  ghost function SetRange(u: seq<bool>, lo: nat, hi: nat, bv: bool): (r: seq<bool>)
    ensures |r| == |u|
  {
    seq(|u|, c requires 0 <= c < |u| => if lo <= c < hi then bv else u[c])
  }

  ghost predicate SameOutsideBitmap(fs: FatFs, l: seq<Sector>, m: seq<Sector>)
    requires fs.Shape()
  {
    |l| == |m| && forall s | 0 <= s < |l| && !InBitmap(fs, s) :: l[s] == m[s]
  }

  /** Bit number k, which is in the window, is flipped. */
  method FlipInWindow(fs: FatFs, k: nat)
    requires fs.Valid() && fs.fsType.EXFAT? && k < fs.nFatEnt - 2
    requires fs.winSect == fs.dataBase + k / 8 / 512 < fs.disk.size
    modifies fs`wFlag, fs.win
    ensures fs.Valid() && SameOutsideBitmap(fs, old(fs.Logical()), fs.Logical())
    ensures Bits(fs, fs.Logical()) == old(Bits(fs, fs.Logical()))[k + 2 := !old(Bits(fs, fs.Logical()))[k + 2]]
  {
    ghost var l := fs.Logical();
    var i, b := k / 8 % 512, k % 8;
    FlipByte(fs.win[i], b);
    assert fs.win[..] == l[fs.winSect];
    fs.win[i] := Flip(fs.win[i], b);
    fs.wFlag := true;
    assert fs.Logical()[fs.winSect] == l[fs.winSect][i := Flip(l[fs.winSect][i], b)];
    FlippedBits(fs, l, fs.Logical(), k);
  }

  lemma SplitIndex(k: nat)
    ensures k == k / 8 / 512 * 4096 + k / 8 % 512 * 8 + k % 8
  {
  }

  /** Only byte k / 8 % 512 of sector k / 8 / 512 of the bitmap differs, and there only bit k % 8. */
  ghost predicate Flipped(fs: FatFs, l: seq<Sector>, m: seq<Sector>, k: nat)
    requires fs.Shape()
  {
    var s, i := fs.dataBase + k / 8 / 512, k / 8 % 512;
    && |l| == |m| == fs.disk.size && k < fs.nFatEnt - 2 && s < |l|
    && (forall x | 0 <= x < |l| && x != s :: m[x] == l[x])
    && (forall x | 0 <= x < 512 && x != i :: m[s][x] == l[s][x])
    && m[s][i] == Flip(l[s][i], k % 8)
  }

  lemma FlippedAt(fs: FatFs, l: seq<Sector>, m: seq<Sector>, k: nat, j: nat)
    requires fs.Shape() && Flipped(fs, l, m, k) && j < fs.nFatEnt - 2
    ensures BitAt(fs, m, j) == if j == k then !BitAt(fs, l, j) else BitAt(fs, l, j)
  {
    BitmapOnDisk(fs);
    SplitIndex(j);
    SplitIndex(k);
    if j / 8 == k / 8 {
      FlipBit(l[fs.dataBase + k / 8 / 512][k / 8 % 512], k % 8, j % 8);
    } else {
      assert j / 8 / 512 != k / 8 / 512 || j / 8 % 512 != k / 8 % 512;
    }
  }

  lemma FlippedBits(fs: FatFs, l: seq<Sector>, m: seq<Sector>, k: nat)
    requires fs.Shape() && Flipped(fs, l, m, k)
    ensures Bits(fs, m) == Bits(fs, l)[k + 2 := !Bits(fs, l)[k + 2]]
  {
    hide BitAt;
    forall j | 0 <= j < fs.nFatEnt - 2
      ensures BitAt(fs, m, j) == if j == k then !BitAt(fs, l, j) else BitAt(fs, l, j)
    {
      FlippedAt(fs, l, m, k, j);
    }
  }

  /** change_bitmap(): set the bits of ncl clusters from clst on to bv; an error when one has that value
      already. */
  method ChangeBitmap(fs: FatFs, clst: nat, ncl: nat, bv: bool) returns (res: FResult)
    requires fs.Valid() && fs.fsType.EXFAT?
    requires 2 <= clst && 1 <= ncl && clst + ncl <= fs.nFatEnt
    modifies fs`wFlag, fs`winSect, fs.win, fs.disk`sec, fs.disk`script
    ensures fs.Valid() && SameOutsideBitmap(fs, old(fs.Logical()), fs.Logical())
    ensures WindowAtBitmap(fs, old(fs.winSect))
    ensures res.OK? || res.IntErr? || res.DiskErr?
    ensures res.OK? ==> Bits(fs, fs.Logical()) == SetRange(old(Bits(fs, fs.Logical())), clst, clst + ncl, bv)
    ensures res.OK? ==> forall c | clst <= c < clst + ncl :: old(Bits(fs, fs.Logical()))[c] == !bv
    ensures res.IntErr? ==> exists c | clst <= c < clst + ncl :: old(Bits(fs, fs.Logical()))[c] == bv
    ensures forall c | 0 <= c < fs.nFatEnt && !(clst <= c < clst + ncl) ::
              Bits(fs, fs.Logical())[c] == old(Bits(fs, fs.Logical()))[c]
    ensures |old(fs.disk.script)| == 0 ==> |fs.disk.script| == 0 && !res.DiskErr?
  {
    ghost var u := Bits(fs, fs.Logical());
    var k: nat, n: nat := clst - 2, ncl;
    while true
      invariant fs.Valid() && SameOutsideBitmap(fs, old(fs.Logical()), fs.Logical())
      invariant WindowAtBitmap(fs, old(fs.winSect))
      invariant 1 <= n <= ncl && k + n == clst - 2 + ncl
      invariant SetUpTo(fs, u, clst, k, bv)
      invariant |old(fs.disk.script)| == 0 ==> |fs.disk.script| == 0
      decreases n
    {
      res := ShowBitmap(fs, k);
      if !res.OK? {
        return DiskErr;
      }
      var done;
      done, res, k, n := ChangeInSector(fs, k, n, bv, u, clst);
      if done {
        return;
      }
    }
  }

  /** The two inner loops of change_bitmap(): the bits from number k0 on that are in the window. */
  method ChangeInSector(fs: FatFs, k0: nat, n0: nat, bv: bool, ghost u: seq<bool>, ghost clst: nat)
    returns (done: bool, res: FResult, k: nat, n: nat)
    requires fs.Valid() && fs.fsType.EXFAT? && |u| == fs.nFatEnt
    requires 1 <= n0 && k0 + n0 <= fs.nFatEnt - 2 && 2 <= clst <= k0 + 2
    requires fs.winSect == fs.dataBase + k0 / 8 / 512 < fs.disk.size
    requires SetUpTo(fs, u, clst, k0, bv)
    modifies fs`wFlag, fs.win
    ensures fs.Valid() && SameOutsideBitmap(fs, old(fs.Logical()), fs.Logical())
    ensures k + n == k0 + n0 && k0 <= k
    ensures SetUpTo(fs, u, clst, k, bv)
    ensures done ==> res.OK? || res.IntErr?
    ensures done && res.OK? ==> n == 0
    ensures done && res.IntErr? ==> 1 <= n && u[k + 2] == bv
    ensures !done ==> 1 <= n < n0
  {
    done, res, k, n := false, OK, k0, n0;
    var i: nat, b: nat := k0 / 8 % 512, k0 % 8;
    ghost var sec := k0 / 8 / 512;
    while i < 512
      invariant i <= 512 && b < 8 && k == sec * 4096 + i * 8 + b
      invariant fs.Valid() && SameOutsideBitmap(fs, old(fs.Logical()), fs.Logical())
      invariant 1 <= n && k + n == k0 + n0 && k0 <= k && (i < 512 || k0 < k)
      invariant SetUpTo(fs, u, clst, k, bv)
    {
      done, res, k, n := ChangeInByte(fs, k, n, i, b, bv, u, clst, sec);
      if done {
        return;
      }
      b, i := 0, i + 1;
    }
  }

  /** The bits of the clusters from clst up to number k have been changed from !bv to bv. */
  ghost predicate SetUpTo(fs: FatFs, u: seq<bool>, clst: nat, k: nat, bv: bool)
    requires fs.Valid()
    reads fs`wFlag, fs`winSect, fs.win, fs.disk`sec
  {
    && |u| == fs.nFatEnt
    && Bits(fs, fs.Logical()) == SetRange(u, clst, k + 2, bv)
    && forall c | clst <= c < k + 2 && c < |u| :: u[c] == !bv
  }

  lemma OutsideSame(fs: FatFs, l: seq<Sector>)
    requires fs.Valid()
    ensures fs.Shape() && SameOutsideBitmap(fs, l, l)
  {
  }

  lemma OutsideBoth(fs: FatFs, l: seq<Sector>, m: seq<Sector>, n: seq<Sector>)
    requires fs.Shape() && SameOutsideBitmap(fs, l, m) && SameOutsideBitmap(fs, m, n)
    ensures SameOutsideBitmap(fs, l, n)
  {
  }

  /** The bit of the next cluster is still as in u, and bit b of byte i of the window. */
  lemma NextBit(fs: FatFs, k: nat, sec: nat, i: nat, b: nat, u: seq<bool>, clst: nat, bv: bool)
    requires fs.Valid() && k < fs.nFatEnt - 2 && i < 512 && b < 8 && k == sec * 4096 + i * 8 + b
    requires fs.winSect == fs.dataBase + sec < fs.disk.size && SetUpTo(fs, u, clst, k, bv)
    ensures |u| == fs.nFatEnt && i < fs.win.Length && k / 8 / 512 == sec
    ensures Bits(fs, fs.Logical())[k + 2] == u[k + 2] == Bit(fs.win[i], b)
  {
    hide Bits, Bit;
    BitHere(fs, k, sec, i, b);
    ByteOf(k, sec, i, b);
  }

  /** The innermost loop: the bits from number b on of byte i of the window. */
  method ChangeInByte(fs: FatFs, k0: nat, n0: nat, i: nat, b0: nat, bv: bool, ghost u: seq<bool>, ghost clst: nat,
    ghost sec: nat)
    returns (done: bool, res: FResult, k: nat, n: nat)
    requires fs.Valid() && fs.fsType.EXFAT? && i < 512 && b0 < 8
    requires 1 <= n0 && k0 + n0 <= fs.nFatEnt - 2 && 2 <= clst <= k0 + 2
    requires k0 == sec * 4096 + i * 8 + b0
    requires fs.winSect == fs.dataBase + sec < fs.disk.size
    requires SetUpTo(fs, u, clst, k0, bv)
    modifies fs`wFlag, fs.win
    ensures fs.Valid() && SameOutsideBitmap(fs, old(fs.Logical()), fs.Logical())
    ensures k + n == k0 + n0 && k0 <= k
    ensures SetUpTo(fs, u, clst, k, bv)
    ensures done ==> res.OK? || res.IntErr?
    ensures done && res.OK? ==> n == 0
    ensures done && res.IntErr? ==> 1 <= n && u[k + 2] == bv
    ensures !done ==> 1 <= n < n0 && k == sec * 4096 + (i + 1) * 8
  {
    hide *;
    ghost var l := fs.Logical();
    OutsideSame(fs, l);
    done, res, k, n := false, OK, k0, n0;
    var b := b0;
    while b < 8
      invariant b0 <= b <= 8 && k == sec * 4096 + i * 8 + b
      invariant fs.Valid() && fs.Shape() && SameOutsideBitmap(fs, l, fs.Logical())
      invariant 1 <= n && k + n == k0 + n0 && k0 <= k
      invariant SetUpTo(fs, u, clst, k, bv)
    {
      NextBit(fs, k, sec, i, b, u, clst, bv);
      if bv == Bit(fs.win[i], b) {
        return true, IntErr, k, n;
      }
      ghost var m := fs.Logical();
      FlipNext(fs, k, bv, u, clst);
      OutsideBoth(fs, l, m, fs.Logical());
      k, n := k + 1, n - 1;
      if n == 0 {
        return true, OK, k, n;
      }
      b := b + 1;
    }
  }

  lemma SetRangeStep(u: seq<bool>, lo: nat, c: nat, bv: bool)
    requires lo <= c < |u|
    ensures SetRange(u, lo, c, bv)[c := bv] == SetRange(u, lo, c + 1, bv)
  {
  }

  method FlipNext(fs: FatFs, k: nat, bv: bool, ghost u: seq<bool>, ghost clst: nat)
    requires fs.Valid() && fs.fsType.EXFAT? && k < fs.nFatEnt - 2 && 2 <= clst <= k + 2
    requires fs.winSect == fs.dataBase + k / 8 / 512 < fs.disk.size
    requires SetUpTo(fs, u, clst, k, bv) && Bits(fs, fs.Logical())[k + 2] == !bv
    modifies fs`wFlag, fs.win
    ensures fs.Valid() && SameOutsideBitmap(fs, old(fs.Logical()), fs.Logical())
    ensures SetUpTo(fs, u, clst, k + 1, bv)
  {
    FlipInWindow(fs, k);
    SetRangeStep(u, clst, k + 2, bv);
  }

  lemma ByteOf(k: nat, sec: nat, i: nat, b: nat)
    requires k == sec * 4096 + i * 8 + b && i < 512 && b < 8
    ensures k / 8 / 512 == sec && k / 8 % 512 == i && k % 8 == b
  {
    assert k / 8 == sec * 512 + i;
  }
}
