/** What an open file holds: the content of its sectors, as the disk with the file's own sector buffer
    laid over it.  The steps of reading and writing, on values. */
module Caches {
  import opened Disks
  import opened Volumes
  import opened Chains
  import opened Bitmaps
  import opened Objects
  import opened Layout

  /** The sector buffer of a file: the sector it shows (0: none) and whether it is newer than the disk. */
  datatype Cache = Cache(sect: nat, dirty: bool, buf: seq<byte>)

  /** The window shows no sector of the file's clusters ch or of a free cluster. */
  ghost predicate Away(fs: FatFs, w: int, u: seq<bool>, ch: seq<nat>)
    requires |u| == fs.nFatEnt
  {
    forall c | 2 <= c < fs.nFatEnt && InCluster(fs, w, c) :: u[c] && c !in ch
  }

  /** A sector that holds no part of a FAT or of the bitmap. */
  ghost predicate Home(fs: FatFs, s: int)
    requires fs.Shape()
  {
    0 <= s < fs.disk.size && !fs.InFat1(s) && !fs.InFat2(s) && !(fs.fsType.EXFAT? && InBitmap(fs, s))
  }

  /** Sector s as the file sees it. */
  ghost function Cached(l: seq<Sector>, ca: Cache, s: nat): seq<byte>
    requires s < |l|
  {
    if ca.dirty && ca.sect == s then ca.buf else l[s]
  }

  /** The file with the clusters ch holds `data`, sector by sector: on the logical disk l, with the window
      at sector w, the clusters u in use, and its buffer ca. */
  ghost predicate Holding(fs: FatFs, ch: seq<nat>, u: seq<bool>, l: seq<Sector>, w: nat, data: seq<Sector>, ca: Cache) {
    && fs.Shape() && 0 < fs.dataBase
    && |u| == fs.nFatEnt && |l| == fs.disk.size
    && InTable(fs.nFatEnt, ch) && Distinct(ch)
    && Away(fs, w, u, ch)
    && Buffered(fs, ch, l, ca)
    && HoldsData(fs, ch, l, data, ca)
  }

  /** The buffer shows no sector of a FAT or of the bitmap; if it is newer than the disk, a sector of the file. */
  ghost predicate Buffered(fs: FatFs, ch: seq<nat>, l: seq<Sector>, ca: Cache)
    requires fs.Shape() && |l| == fs.disk.size
  {
    && |ca.buf| == 512
    && (ca.sect != 0 ==> Home(fs, ca.sect))
    && (ca.dirty ==> ca.sect in Sectors(fs, ch))
    && (!ca.dirty && ca.sect != 0 ==> ca.buf == l[ca.sect])
  }

  /** If sector s is one of the first of ss, those for the bytes before position n, b is what it holds. */
  ghost predicate Agrees(ss: seq<nat>, data: seq<Sector>, s: nat, b: seq<byte>, n: nat) {
    forall k | 0 <= k < |ss| && k < |data| && k * 512 < n && ss[k] == s :: data[k] == b
  }

  lemma AgreesGrown(ss: seq<nat>, data: seq<Sector>, s: nat, b: seq<byte>, n: nat, ss': seq<nat>, data': seq<Sector>)
    requires Agrees(ss, data, s, b, n) && |ss| == |data| && n <= |data| * 512 && ss <= ss' && data <= data'
    ensures Agrees(ss', data', s, b, n)
  {
  }

  ghost predicate HoldsData(fs: FatFs, ch: seq<nat>, l: seq<Sector>, data: seq<Sector>, ca: Cache)
    requires 0 < fs.cSize
  {
    && |data| == |Sectors(fs, ch)|
    && forall k | 0 <= k < |data| :: Sectors(fs, ch)[k] < |l| && data[k] == Cached(l, ca, Sectors(fs, ch)[k])
  }

  /** The file's sectors hold neither FAT nor bitmap. */
  lemma SectorInHome(fs: FatFs, u: seq<bool>, ch: seq<nat>, s: nat)
    requires fs.Shape() && |u| == fs.nFatEnt && Owned(fs, u, ch) && InTable(fs.nFatEnt, ch)
    requires s in Sectors(fs, ch)
    ensures Home(fs, s)
  {
    SectorsOfClusters(fs, ch, s);
    var c :| c in ch && InCluster(fs, s, c);
    ClusterOnDisk(fs, c, s);
    assert !Reserved(fs, c);
  }

  /** The window shows none of the file's sectors. */
  lemma NotInWindow(fs: FatFs, w: nat, u: seq<bool>, ch: seq<nat>, s: nat)
    requires fs.Shape() && |u| == fs.nFatEnt && InTable(fs.nFatEnt, ch) && Away(fs, w, u, ch)
    requires s in Sectors(fs, ch)
    ensures s != w
  {
    SectorsOfClusters(fs, ch, s);
  }

  lemma BitmapIsReserved(fs: FatFs, c: nat, s: nat)
    requires fs.Shape() && fs.fsType.EXFAT? && 2 <= c < fs.nFatEnt && InCluster(fs, s, c) && InBitmap(fs, s)
    ensures Reserved(fs, c)
  {
  }

  /** The window at the FAT, at the bitmap or nowhere shows no sector of the file. */
  lemma MetaAway(fs: FatFs, w: nat, u: seq<bool>, ch: seq<nat>)
    requires fs.Shape() && |u| == fs.nFatEnt && Owned(fs, u, ch) && InTable(fs.nFatEnt, ch)
    requires w == INVALID || fs.InFat1(w) || (fs.fsType.EXFAT? && InBitmap(fs, w))
    ensures Away(fs, w, u, ch)
  {
    forall c | 2 <= c < fs.nFatEnt && InCluster(fs, w, c)
      ensures u[c] && c !in ch
    {
      ClusterOnDisk(fs, c, w);
      BitmapIsReserved(fs, c, w);
    }
  }

  /** FAT and bitmap may change, and the window move: the file holds what it held. */
  lemma HoldsThroughMeta(fs: FatFs, ch: seq<nat>, u: seq<bool>, l: seq<Sector>, w: nat, data: seq<Sector>, ca: Cache,
    m: seq<Sector>, v: nat)
    requires Holding(fs, ch, u, l, w, data, ca) && Owned(fs, u, ch) && SameData(fs, l, m)
    requires v == w || v == INVALID || fs.InFat1(v) || (fs.fsType.EXFAT? && InBitmap(fs, v))
    ensures Holding(fs, ch, u, m, v, data, ca)
  {
    if v != w {
      MetaAway(fs, v, u, ch);
    }
    forall k | 0 <= k < |data|
      ensures data[k] == Cached(m, ca, Sectors(fs, ch)[k])
    {
      SectorInHome(fs, u, ch, Sectors(fs, ch)[k]);
    }
  }

  /** What the clusters ch hold on the disk l. */
  ghost function OnDisk(fs: FatFs, ch: seq<nat>, l: seq<Sector>): (d: seq<Sector>)
    requires fs.Shape() && InTable(fs.nFatEnt, ch) && |l| == fs.disk.size
    ensures |d| == |Sectors(fs, ch)|
    ensures HoldsData(fs, ch, l, d, Cache(0, false, []))
  {
    SectorsOnDisk(fs, ch);
    var ss := Sectors(fs, ch);
    seq(|ss|, k requires 0 <= k < |ss| => l[ss[k]])
  }

  lemma SectorsOnDisk(fs: FatFs, ch: seq<nat>)
    requires fs.Shape() && InTable(fs.nFatEnt, ch)
    ensures forall k | 0 <= k < |Sectors(fs, ch)| :: Sectors(fs, ch)[k] < fs.disk.size
  {
    hide Sectors;
    forall k | 0 <= k < |Sectors(fs, ch)|
      ensures Sectors(fs, ch)[k] < fs.disk.size
    {
      SectorsOfClusters(fs, ch, Sectors(fs, ch)[k]);
    }
  }

  /** A file just opened. */
  lemma HoldStart(fs: FatFs, ch: seq<nat>, u: seq<bool>, l: seq<Sector>, w: nat, b: seq<byte>)
    requires fs.Shape() && 0 < fs.dataBase && |u| == fs.nFatEnt && |l| == fs.disk.size && |b| == 512
    requires InTable(fs.nFatEnt, ch) && Distinct(ch) && Away(fs, w, u, ch)
    ensures Holding(fs, ch, u, l, w, OnDisk(fs, ch, l), Cache(0, false, b))
  {
  }

  // ---------------------------------------------------------------- the steps

  /** The dirty buffer is written to its sector. */
  lemma HoldFlush(fs: FatFs, ch: seq<nat>, u: seq<bool>, l: seq<Sector>, w: nat, data: seq<Sector>, ca: Cache)
    requires Holding(fs, ch, u, l, w, data, ca) && ca.dirty
    ensures ca.sect != w && Home(fs, ca.sect)
    ensures Holding(fs, ch, u, l[ca.sect := ca.buf], w, data, ca.(dirty := false))
  {
    NotInWindow(fs, w, u, ch, ca.sect);
  }

  /** Writing the dirty buffer failed: whatever its sector now holds, the buffer still stands for it. */
  lemma HoldFailed(fs: FatFs, ch: seq<nat>, u: seq<bool>, l: seq<Sector>, w: nat, data: seq<Sector>, ca: Cache,
    m: seq<Sector>)
    requires Holding(fs, ch, u, l, w, data, ca) && ca.dirty
    requires |m| == |l| && forall i | 0 <= i < |l| && i != ca.sect :: m[i] == l[i]
    ensures Holding(fs, ch, u, m, w, data, ca)
  {
  }

  /** The clean buffer takes sector k of the file. */
  lemma HoldLoad(fs: FatFs, ch: seq<nat>, u: seq<bool>, l: seq<Sector>, w: nat, data: seq<Sector>, ca: Cache, k: nat)
    requires Holding(fs, ch, u, l, w, data, ca) && Owned(fs, u, ch) && !ca.dirty && k < |data|
    ensures Sectors(fs, ch)[k] != w && Sectors(fs, ch)[k] < |l| && l[Sectors(fs, ch)[k]] == data[k]
    ensures Holding(fs, ch, u, l, w, data, Cache(Sectors(fs, ch)[k], false, data[k]))
  {
    NotInWindow(fs, w, u, ch, Sectors(fs, ch)[k]);
    SectorInHome(fs, u, ch, Sectors(fs, ch)[k]);
  }

  /** The buffer shows sector k of the file. */
  lemma HoldsInBuffer(fs: FatFs, ch: seq<nat>, u: seq<bool>, l: seq<Sector>, w: nat, data: seq<Sector>, ca: Cache,
    k: nat)
    requires Holding(fs, ch, u, l, w, data, ca) && Owned(fs, u, ch) && k < |data| && ca.sect == Sectors(fs, ch)[k]
    ensures ca.buf == data[k]
  {
    SectorInHome(fs, u, ch, Sectors(fs, ch)[k]);
  }

  /** n sectors of one cluster on the disk: the file's, but for the one in a dirty buffer. */
  lemma HoldsRow(fs: FatFs, ch: seq<nat>, u: seq<bool>, l: seq<Sector>, w: nat, data: seq<Sector>, ca: Cache, k: nat,
    n: nat)
    requires Holding(fs, ch, u, l, w, data, ca) && k < |data|
    requires 0 < n && Rem(k, fs.cSize) + n <= fs.cSize
    ensures var s := Sectors(fs, ch)[k]; k + n <= |data| && s + n <= |l| && !(s <= w < s + n)
    ensures var s := Sectors(fs, ch)[k];
      forall i | k <= i < k + n :: data[i] == if ca.dirty && ca.sect == s + (i - k) then ca.buf else l[s + (i - k)]
  {
    hide Sectors, Rem;
    InRow(fs, ch, k, n);
    RowInMemory(fs, ch, u, l, w, data, ca, k, n);
  }

  lemma OtherSectors(fs: FatFs, ch: seq<nat>, k: nat)
    requires fs.Shape() && InTable(fs.nFatEnt, ch) && Distinct(ch) && k < |Sectors(fs, ch)|
    ensures forall j | 0 <= j < |Sectors(fs, ch)| && j != k :: Sectors(fs, ch)[j] != Sectors(fs, ch)[k]
  {
    forall j | 0 <= j < |Sectors(fs, ch)| && j != k
      ensures Sectors(fs, ch)[j] != Sectors(fs, ch)[k]
    {
      if j < k {
        SectorsDiffer(fs, ch, j, k);
      } else {
        SectorsDiffer(fs, ch, k, j);
      }
    }
  }

  /** The buffer shows sector k already, or it is clean and now takes the place of that sector: it gets b. */
  lemma HoldPut(fs: FatFs, ch: seq<nat>, u: seq<bool>, l: seq<Sector>, w: nat, data: seq<Sector>, ca: Cache, k: nat,
    b: Sector)
    requires Holding(fs, ch, u, l, w, data, ca) && Owned(fs, u, ch) && k < |data|
    requires ca.dirty ==> ca.sect == Sectors(fs, ch)[k]
    ensures Holding(fs, ch, u, l, w, data[k := b], Cache(Sectors(fs, ch)[k], true, b))
  {
    OtherSectors(fs, ch, k);
    SectorInHome(fs, u, ch, Sectors(fs, ch)[k]);
  }

  /** l with the sectors `src` from sector s on. */
  ghost function Spliced(l: seq<Sector>, s: nat, src: seq<Sector>): (m: seq<Sector>)
    requires s + |src| <= |l|
    ensures |m| == |l|
    ensures forall i | 0 <= i < |l| :: m[i] == if s <= i < s + |src| then src[i - s] else l[i]
  {
    l[..s] + src + l[s + |src|..]
  }

  /** The clean buffer after sectors `src` were written from sector s on: refilled if it is among them. */
  ghost function Refilled(ca: Cache, s: nat, src: seq<Sector>): Cache {
    if s <= ca.sect < s + |src| then Cache(ca.sect, false, src[ca.sect - s]) else ca
  }

  /** Sectors of one cluster are written past the buffer. */
  lemma HoldDirect(fs: FatFs, ch: seq<nat>, u: seq<bool>, l: seq<Sector>, w: nat, data: seq<Sector>, ca: Cache, k: nat,
    src: seq<Sector>)
    requires Holding(fs, ch, u, l, w, data, ca) && !ca.dirty
    requires 0 < |src| && k < |data| && Rem(k, fs.cSize) + |src| <= fs.cSize
    ensures var s := Sectors(fs, ch)[k];
      && k + |src| <= |data| && s + |src| <= |l| && !(s <= w < s + |src|)
      && Holding(fs, ch, u, Spliced(l, s, src), w, Spliced(data, k, src), Refilled(ca, s, src))
  {
    hide Sectors, Rem;
    var s := Sectors(fs, ch)[k];
    InRow(fs, ch, k, |src|);
    RowInMemory(fs, ch, u, l, w, data, ca, k, |src|);
    var l', data', ca' := Spliced(l, s, src), Spliced(data, k, src), Refilled(ca, s, src);
    forall i | 0 <= i < |data'|
      ensures data'[i] == Cached(l', ca', Sectors(fs, ch)[i])
    {
      NotInRow(fs, ch, k, |src|, i);
    }
  }

  /** A buffer that has none of the sectors written past it stays in agreement. */
  lemma AgreesSpliced(fs: FatFs, ch: seq<nat>, data: seq<Sector>, s: nat, b: seq<byte>, n: nat, k: nat,
    src: seq<Sector>, m: nat)
    requires fs.Shape() && InTable(fs.nFatEnt, ch) && Distinct(ch) && k + |src| <= |data| == |Sectors(fs, ch)|
    requires 0 < |src| && Rem(k, fs.cSize) + |src| <= fs.cSize && Agrees(Sectors(fs, ch), data, s, b, n)
    requires !(Sectors(fs, ch)[k] <= s < Sectors(fs, ch)[k] + |src|) && k * 512 <= n
    requires m <= n || m <= (k + |src|) * 512
    ensures Agrees(Sectors(fs, ch), Spliced(data, k, src), s, b, m)
  {
    hide Sectors, Rem;
    forall i | 0 <= i < |data| && i * 512 < m && Sectors(fs, ch)[i] == s
      ensures Spliced(data, k, src)[i] == b
    {
      NotInRow(fs, ch, k, |src|, i);
    }
  }

  lemma RowInMemory(fs: FatFs, ch: seq<nat>, u: seq<bool>, l: seq<Sector>, w: nat, data: seq<Sector>, ca: Cache, k: nat,
    n: nat)
    requires Holding(fs, ch, u, l, w, data, ca) && k < |data|
    requires 0 < n && Rem(k, fs.cSize) + n <= fs.cSize
    ensures var s := Sectors(fs, ch)[k]; s + n <= |l| && !(s <= w < s + n)
  {
    hide Sectors, Rem;
    var s := Sectors(fs, ch)[k];
    InRow(fs, ch, k, n);
    assert Sectors(fs, ch)[k + n - 1] < |l|;
    if s <= w < s + n {
      var i := k + (w - s);
      assert Sectors(fs, ch)[i] == w;
      NotInWindow(fs, w, u, ch, w);
      assert false;
    }
  }

  lemma InRow(fs: FatFs, ch: seq<nat>, k: nat, n: nat)
    requires 0 < fs.cSize && k < |Sectors(fs, ch)| && 0 < n && Rem(k, fs.cSize) + n <= fs.cSize
    ensures k + n <= |Sectors(fs, ch)|
    ensures forall i | k <= i < k + n :: Sectors(fs, ch)[i] == Sectors(fs, ch)[k] + (i - k)
  {
    hide Sectors, Rem;
    SectorRun(fs, ch, k, n - 1);
    forall i | k <= i < k + n
      ensures Sectors(fs, ch)[i] == Sectors(fs, ch)[k] + (i - k)
    {
      SectorRun(fs, ch, k, i - k);
    }
  }

  lemma NotInRow(fs: FatFs, ch: seq<nat>, k: nat, n: nat, i: nat)
    requires fs.Shape() && InTable(fs.nFatEnt, ch) && Distinct(ch) && k < |Sectors(fs, ch)| && i < |Sectors(fs, ch)|
    requires 0 < n && Rem(k, fs.cSize) + n <= fs.cSize
    ensures var s := Sectors(fs, ch)[k]; s <= Sectors(fs, ch)[i] < s + n <==> k <= i < k + n
    ensures var s := Sectors(fs, ch)[k]; k <= i < k + n ==> Sectors(fs, ch)[i] == s + (i - k)
  {
    hide Sectors, Rem;
    var s := Sectors(fs, ch)[k];
    InRow(fs, ch, k, n);
    OtherSectors(fs, ch, i);
    if s <= Sectors(fs, ch)[i] < s + n {
      var j := k + (Sectors(fs, ch)[i] - s);
      assert Sectors(fs, ch)[j] == Sectors(fs, ch)[i];
    }
  }

  /** The chain is cut; a dirty buffer is written, even if its sector was cut off. */
  lemma HoldCut(fs: FatFs, ch: seq<nat>, u: seq<bool>, l: seq<Sector>, w: nat, data: seq<Sector>, ca: Cache,
    m: nat, u': seq<bool>)
    requires Holding(fs, ch, u, l, w, data, ca) && m <= |ch|
    requires |u'| == |u| && forall c | 0 <= c < |u| && !u'[c] :: !u[c] || c in ch
    ensures ca.dirty ==> ca.sect != w && Home(fs, ca.sect)
    ensures |Sectors(fs, ch[..m])| <= |data|
    ensures Holding(fs, ch[..m], u', if ca.dirty then l[ca.sect := ca.buf] else l, w, data[..|Sectors(fs, ch[..m])|],
              ca.(dirty := false))
  {
    SectorsOfPrefix(fs, ch, m);
    if ca.dirty {
      NotInWindow(fs, w, u, ch, ca.sect);
    }
  }

  // ---------------------------------------------------------------- growing

  /** The sectors of cluster r. */
  ghost function ClusterData(fs: FatFs, l: seq<Sector>, r: nat): (d: seq<Sector>)
    requires fs.SectorOf(r) + fs.cSize <= |l|
    ensures |d| == fs.cSize
  {
    seq(fs.cSize, j requires 0 <= j < fs.cSize => l[fs.SectorOf(r) + j])
  }

  lemma ClusterFits(fs: FatFs, r: nat)
    requires fs.Shape() && 2 <= r < fs.nFatEnt
    ensures fs.SectorOf(r) + fs.cSize <= fs.disk.size
  {
    ClusterOnDisk(fs, r, fs.SectorOf(r) + fs.cSize - 1);
  }

  /** The sectors of the chain with a new cluster. */
  lemma SectorsAppended(fs: FatFs, ch: seq<nat>, r: nat)
    requires 0 < fs.cSize
    ensures |Sectors(fs, ch + [r])| == |Sectors(fs, ch)| + fs.cSize
    ensures forall k | 0 <= k < |Sectors(fs, ch + [r])| ::
              Sectors(fs, ch + [r])[k] == if k < |Sectors(fs, ch)| then Sectors(fs, ch)[k]
                                          else fs.SectorOf(r) + (k - |Sectors(fs, ch)|)
  {
    hide Sectors, Prod, Quot, Rem, FatFs.SectorOf;
    var d := ch + [r];
    SectorAt(fs, ch, 0);
    SectorAt(fs, d, 0);
    OneMore(|ch|, fs.cSize);
    forall k | 0 <= k < |Sectors(fs, d)|
      ensures Sectors(fs, d)[k] == if k < |Sectors(fs, ch)| then Sectors(fs, ch)[k]
                                   else fs.SectorOf(r) + (k - |Sectors(fs, ch)|)
    {
      SectorAt(fs, d, k);
      SectorAt(fs, ch, k);
      if k >= |Sectors(fs, ch)| {
        InNumber(|ch|, k, fs.cSize);
      }
    }
  }

  lemma DirtyGrows(fs: FatFs, ch: seq<nat>, r: nat, s: nat)
    requires fs.Shape() && InTable(fs.nFatEnt, ch) && 2 <= r && r !in ch && s in Sectors(fs, ch)
    ensures s in Sectors(fs, ch + [r]) && !InCluster(fs, s, r)
  {
    hide Sectors;
    SectorsAppended(fs, ch, r);
    SectorsOfClusters(fs, ch, s);
    var c :| c in ch && InCluster(fs, s, c);
    if InCluster(fs, s, r) {
      OneCluster(fs, s, c, r);
    }
  }

  /** A free cluster is appended to the chain: the file holds its sectors after the others. */
  lemma HoldsGrown(fs: FatFs, ch: seq<nat>, u: seq<bool>, l: seq<Sector>, w: nat, data: seq<Sector>, ca: Cache, r: nat)
    requires Holding(fs, ch, u, l, w, data, ca) && 2 <= r < fs.nFatEnt && !u[r] && r !in ch
    ensures fs.SectorOf(r) + fs.cSize <= |l|
    ensures Holding(fs, ch + [r], u[r := true], l, w, data + ClusterData(fs, l, r), ca)
  {
    ClusterFits(fs, r);
    var d, data' := ch + [r], data + ClusterData(fs, l, r);
    SectorsAppended(fs, ch, r);
    if ca.dirty {
      DirtyGrows(fs, ch, r, ca.sect);
    }
    GrownData(fs, ch, l, data, ca, r);
  }

  lemma GrownData(fs: FatFs, ch: seq<nat>, l: seq<Sector>, data: seq<Sector>, ca: Cache, r: nat)
    requires 0 < fs.cSize && HoldsData(fs, ch, l, data, ca) && fs.SectorOf(r) + fs.cSize <= |l|
    requires ca.dirty ==> !InCluster(fs, ca.sect, r)
    ensures HoldsData(fs, ch + [r], l, data + ClusterData(fs, l, r), ca)
  {
    SectorsAppended(fs, ch, r);
  }
}
