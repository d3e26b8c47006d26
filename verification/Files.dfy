/** An open file (FIL): reading, writing, seeking and truncating through its sector buffer and, for whole
    sectors, past it. */
module Files {
  import opened Disks
  import opened FatCodes
  import opened Volumes
  import opened Chains
  import opened ObjChains
  import opened Bitmaps
  import opened Objects
  import opened Layout
  import opened Caches
  import opened Contents

  /** The state of volume and file: the clusters in use, those of the file, the logical disk, the sector in the
      window, the FAT, the free count, and whether that is one to keep right (on FAT12/16/32). */
  datatype Start = Start(u: seq<bool>, ch: seq<nat>, l: seq<Sector>, w: nat, t: seq<nat>, free: nat, counted: bool)

  /** No FAT entry of a cluster in use by others changed, and none became 1. */
  ghost predicate LinksKept(g: Start, t: seq<nat>) {
    && |g.u| == |g.t| == |t| && NoneBroken(g.t, t)
    && forall c | 2 <= c < |t| && g.u[c] && c !in g.ch :: t[c] == g.t[c]
  }

  /** Some entry of the FAT at g is 1. */
  ghost predicate WasBroken(g: Start) {
    exists c | 2 <= c < |g.t| :: g.t[c] == 1
  }

  /** A free count that is out of range stays, and one in range stays in range. */
  ghost predicate CountLives(was: nat, free: nat, n: nat) {
    if was <= n - 2 then free <= n - 2 else free == was
  }

  lemma LivesRaised(was: nat, free: nat, n: nat, m: nat)
    requires n >= 2 && CountLives(was, free, n)
    ensures CountLives(was, Raised(free, n, m), n)
  {
  }

  /** From g to h the free count stays right, if it is one to keep right, and in range, or out of range. */
  ghost predicate FreeKept(g: Start, h: Start) {
    (g.counted ==> h.counted) && CountLives(g.free, h.free, |g.u|)
  }

  lemma BrokenBefore(g: Start, t: seq<nat>)
    requires LinksKept(g, t) && exists c | 2 <= c < |t| :: t[c] == 1
    ensures WasBroken(g)
  {
  }

  /** Entries of the file, and one of a free cluster, changed. */
  lemma LinksStay(g: Start, u: seq<bool>, ch: seq<nat>, t: seq<nat>, t': seq<nat>, r: nat)
    requires LinksKept(g, t) && Stays(g, u, ch) && SameElsewhere(t, t', ch, r) && (2 <= r < |u| ==> !u[r])
    ensures LinksKept(g, t')
  {
  }

  /** Every sector that holds neither FAT nor bitmap nor belongs to the file or a free cluster is as before. */
  ghost predicate OthersKept(fs: FatFs, g: Start, l: seq<Sector>)
    requires fs.Shape()
  {
    && |g.u| == fs.nFatEnt && |g.l| == |l| == fs.disk.size
    && forall s | Home(fs, s) && Away(fs, s, g.u, g.ch) :: l[s] == g.l[s]
  }

  /** The clusters of others are still in use, and none is the file's. */
  ghost predicate Spared(g: Start, u: seq<bool>, ch: seq<nat>) {
    && |g.u| == |u|
    && forall c | 2 <= c < |u| && g.u[c] && c !in g.ch :: u[c] && c !in ch
  }

  /** The file took nothing but free clusters since g, gave back nothing but its own, and has what was taken. */
  ghost predicate Stays(g: Start, u: seq<bool>, ch: seq<nat>) {
    Spared(g, u, ch) && forall c | 2 <= c < |u| && u[c] && !g.u[c] :: c in ch
  }

  lemma StillStays(g: Start, u: seq<bool>, ch: seq<nat>, m: nat, u': seq<bool>)
    requires Stays(g, u, ch) && g.u == u && m <= |ch| && OnlyFreed(u, ch, u')
    ensures Stays(g, u', ch[..m])
  {
  }

  /** From g to h, and from h on. */
  lemma SinceTwice(fs: FatFs, g: Start, h: Start, u: seq<bool>, ch: seq<nat>, l: seq<Sector>)
    requires fs.Shape() && |h.u| == fs.nFatEnt && Spared(g, h.u, h.ch) && Spared(h, u, ch)
    requires OthersKept(fs, g, h.l) && OthersKept(fs, h, l)
    ensures Spared(g, u, ch) && OthersKept(fs, g, l)
    ensures LinksKept(g, h.t) ==> forall t | LinksKept(h, t) :: LinksKept(g, t)
  {
    forall s | Home(fs, s) && Away(fs, s, g.u, g.ch)
      ensures l[s] == g.l[s]
    {
      StillAway(fs, g, h.u, h.ch, s);
    }
  }

  lemma StillAway(fs: FatFs, g: Start, u: seq<bool>, ch: seq<nat>, s: int)
    requires |u| == fs.nFatEnt && Spared(g, u, ch) && Away(fs, s, g.u, g.ch)
    ensures Away(fs, s, u, ch)
  {
  }

  lemma FreshCluster(fs: FatFs, g: Start, u: seq<bool>, ch: seq<nat>, r: nat)
    requires fs.Shape() && |u| == fs.nFatEnt && Owned(fs, u, ch) && Stays(g, u, ch) && 2 <= r < |u| && !u[r]
    ensures r !in ch && Stays(g, u[r := true], ch + [r])
  {
  }

  /** FAT and bitmap apart, nothing changed. */
  lemma MetaKeepsOthers(fs: FatFs, g: Start, l: seq<Sector>, m: seq<Sector>)
    requires fs.Shape() && OthersKept(fs, g, l) && SameData(fs, l, m)
    ensures OthersKept(fs, g, m)
  {
  }

  /** Sectors of the file are written. */
  lemma SplicedKeepsOthers(fs: FatFs, g: Start, u: seq<bool>, ch: seq<nat>, l: seq<Sector>, m: seq<Sector>,
    s: nat, n: nat)
    requires fs.Shape() && OthersKept(fs, g, l) && |u| == fs.nFatEnt && Stays(g, u, ch) && InTable(fs.nFatEnt, ch)
    requires |m| == |l| && forall i | 0 <= i < |l| && !(s <= i < s + n) :: m[i] == l[i]
    requires forall i | s <= i < s + n :: i in Sectors(fs, ch)
    ensures OthersKept(fs, g, m)
  {
    forall i | Home(fs, i) && Away(fs, i, g.u, g.ch)
      ensures m[i] == g.l[i]
    {
      StillAway(fs, g, u, ch, i);
      if s <= i < s + n {
        NotInWindow(fs, i, u, ch, i);
      }
    }
  }

  /** disk_write() of data sectors that the window does not show. */
  method WriteData(fs: FatFs, src: seq<byte>, s: nat, n: nat) returns (ok: bool)
    requires fs.Valid() && |src| == n * 512
    requires !(s <= fs.winSect < s + n) && forall i | s <= i < s + n :: Home(fs, i)
    modifies fs.disk`sec, fs.disk`script
    ensures fs.Valid() && fs.Table() == old(fs.Table()) && Used(fs) == old(Used(fs))
    ensures forall i | 0 <= i < fs.disk.size && !(s <= i < s + n) :: fs.Logical()[i] == old(fs.Logical())[i]
    ensures ok ==> s + n <= fs.disk.size && fs.Logical() == Spliced(old(fs.Logical()), s, Chunks(src, n))
    ensures ok && n == 1 ==> fs.Logical() == old(fs.Logical())[s := src]
    ensures |old(fs.disk.script)| == 0 && s + n <= fs.disk.size ==> ok
    ensures |old(fs.disk.script)| == 0 ==> |fs.disk.script| == 0
  {
    hide FatCodes.Table, Bits;
    ghost var l := fs.Logical();
    ok := fs.disk.Write(src, s, n);
    SameMeta(fs, l);
  }

  /** disk_read() of data sectors that the window does not show. */
  method ReadData(fs: FatFs, buff: array<byte>, at: nat, s: nat, n: nat) returns (ok: bool)
    requires fs.Valid() && at + n * 512 <= buff.Length && buff != fs.win
    requires !(s <= fs.winSect < s + n) && s + n <= fs.disk.size
    modifies buff, fs.disk`script
    ensures fs.Valid() && fs.Logical() == old(fs.Logical())
    ensures ok ==> forall j | at <= j < at + n * 512 :: buff[j] == fs.Logical()[s + (j - at) / 512][(j - at) % 512]
    ensures forall j | 0 <= j < at || at + n * 512 <= j < buff.Length :: buff[j] == old(buff[j])
    ensures |old(fs.disk.script)| == 0 ==> ok && |fs.disk.script| == 0
  {
    ok := fs.disk.Read(buff, at, s, n);
  }

  /** What stands in FAT and bitmap says the same as before. */
  lemma SameMeta(fs: FatFs, l: seq<Sector>)
    requires fs.Valid() && |l| == fs.disk.size
    requires forall i | 0 <= i < fs.disk.size && !Home(fs, i) :: fs.Logical()[i] == l[i]
    ensures fs.FatArea(l) == fs.FatArea(fs.Logical())
    ensures fs.fsType.EXFAT? ==> Bits(fs, l) == Bits(fs, fs.Logical())
  {
    if fs.fsType.EXFAT? {
      BitmapOnDisk(fs);
      BitsFrame(fs, l, fs.Logical());
    }
  }

  /** get_fat() on cluster number i of the chain. */
  method Next(obj: FfObj, clst: nat, ghost i: nat) returns (val: nat)
    requires obj.Linked() && obj.fs.Valid() && 1 <= obj.fs.cSize && i < |obj.chain| && obj.Followable(i)
    requires clst == obj.chain[i]
    modifies obj.fs`wFlag, obj.fs`winSect, obj.fs.win, obj.fs.disk`sec, obj.fs.disk`script
    ensures MetaStep(obj.fs, old(obj.fs.Logical()), old(obj.fs.winSect), |old(obj.fs.disk.script)| == 0)
    ensures obj.fs.Valid() && obj.Linked() && Used(obj.fs) == old(Used(obj.fs)) && obj.fs.Table() == old(obj.fs.Table())
    ensures val != INVALID ==> Follows(obj.fs.nFatEnt, obj.chain, i, val)
    ensures |old(obj.fs.disk.script)| == 0 ==> |obj.fs.disk.script| == 0 && val != INVALID
  {
    hide FatFs.Table, FatFs.Logical, FatFs.Valid, View, Bits, Used, Owned, Holds, FfObj.Clen, Follows, FfObj.Followable,
      MetaStep, FatFs.SameButMirror, FatFs.WindowAtFat;
    ghost var l, w, q := obj.fs.Logical(), obj.fs.winSect, |obj.fs.disk.script| == 0;
    ChainInTable(obj);
    obj.GetFatFollows(i);
    val := obj.GetFat(clst);
    ReadOnly(obj.fs, l, w, q);
  }

  lemma LastBelow(obj: FfObj)
    requires obj.Linked() && obj.fs.fsType.EXFAT?
    ensures if obj.chain == [] then obj.nFrag == 0
            else obj.nFrag < Last(obj) < obj.fs.nFatEnt && EndsWith(obj, Last(obj))
  {
    if obj.chain != [] {
      LastFragBelow(obj.fs.Table(), obj.Status(), obj.chain);
    }
  }

  /** The whole object is described by the volume: it is contiguous, or its chain is on the FAT. */
  ghost predicate OnVolume(obj: FfObj)
    requires obj.fs.Valid()
    reads obj`stat, obj`chain, obj.fs`wFlag, obj.fs`winSect, obj.fs.win, obj.fs.disk`sec
  {
    obj.chain == [] || (obj.fs.fsType.EXFAT? && obj.stat == 2 && Run(obj.chain, 0, |obj.chain|))
    || IsChain(obj.fs.Table(), obj.chain)
  }

  /** Nothing of the object waits to be written. */
  lemma IsOnVolume(obj: FfObj)
    requires obj.Linked() && (obj.fs.fsType.EXFAT? ==> obj.stat != 3 && obj.nFrag == 0)
    ensures OnVolume(obj)
  {
    if obj.chain != [] {
      NothingDeferred(obj.fs.Table(), obj.Status(), obj.chain);
    }
  }

  lemma FirstFits(obj: FfObj)
    requires obj.Linked() && obj.fs.fsType.EXFAT?
    ensures obj.stat == 3 ==> obj.chain != [] && 2 <= obj.sClust && obj.sClust + obj.nCont < obj.fs.nFatEnt
  {
    if obj.stat == 3 {
      FillFirstHolds(obj.fs.Table(), obj.Status(), obj.chain, 0);
    }
  }

  lemma HoldFacts(fs: FatFs, ch: seq<nat>, u: seq<bool>, l: seq<Sector>, w: nat, data: seq<Sector>, ca: Cache)
    requires Holding(fs, ch, u, l, w, data, ca)
    ensures fs.Shape() && 0 < fs.cSize && InTable(fs.nFatEnt, ch) && |data| == |Sectors(fs, ch)|
    ensures ca.dirty ==> ca.sect in Sectors(fs, ch)
  {
  }

  /** The fills change entries of the chain only. */
  lemma FillsElsewhere(ch: seq<nat>, t: seq<nat>, a: Alloc, t': seq<nat>)
    requires NoneBroken(t, t') && (ch != [] ==> Holds(t, a, ch)) && (ch == [] ==> a.nFrag == 0 && a.stat != 3)
    requires (forall c | 0 <= c < |t| && ch != [] && !(ch[|ch| - 1] - a.nFrag < c <= ch[|ch| - 1]) :: t'[c] == t[c])
          || (forall c | 0 <= c < |t| && ch != [] && !(ch[0] <= c < ch[0] + a.nCont && a.stat == 3) :: t'[c] == t[c])
    requires ch == [] ==> t' == t
    ensures SameElsewhere(t, t', ch, 0)
  {
    forall c | 0 <= c < |t| && c !in ch && c != 0
      ensures t'[c] == t[c]
    {
      if ch != [] {
        FragmentsInChain(t, a, ch, c);
      }
    }
  }

  lemma ObjectFacts(obj: FfObj)
    requires obj.Linked()
    ensures obj.fs.Valid() && obj.fs.Shape() && 0 < obj.fs.cSize && InTable(obj.fs.nFatEnt, obj.chain)
    ensures Distinct(obj.chain)
  {
  }

  lemma LinkedAgain(obj: FfObj)
    requires obj.fs.Valid() && obj.fs.Shape() && Owned(obj.fs, Used(obj.fs), obj.chain)
    requires obj.sClust == if obj.chain == [] then 0 else obj.chain[0]
    requires obj.chain == [] ==> obj.Status().nFrag == 0 && obj.Status().stat != 3
    requires obj.chain != [] ==> Holds(obj.fs.Table(), obj.Status(), obj.chain)
    ensures obj.Linked()
  {
    hide Holds, Owned;
  }

  /** The test, in 32-bit arithmetic, for one of the cc sectors from s on. */
  lemma Within32(a: nat, s: nat, cc: nat)
    requires a < INVALID && s + cc < INVALID
    ensures Sub32(a, s) < cc <==> s <= a < s + cc
    ensures s <= a < s + cc ==> Sub32(a, s) == a - s
  {
  }

  lemma SectorBounds(fs: FatFs)
    requires fs.Shape()
    ensures fs.disk.size < INVALID
  {
  }

  class Fil {
    const obj: FfObj
    const forReading: bool
    const forWriting: bool
    const buf: array<byte>
    var err: FResult
    var fptr: nat          // read/write pointer
    var clust: nat         // cluster of the byte before fptr
    var sect: nat          // sector in buf, 0: none
    var dirty: bool
    var modified: bool
    ghost var data: seq<Sector>
    ghost var tracked: bool   // a clean buffer is known to show what is on the disk

    /** The end of f_open(): the pointer at the start, the buffer empty. */
    constructor (o: FfObj, reading: bool, writing: bool)
      requires o.Linked() && 0 < o.fs.dataBase && Away(o.fs, o.fs.winSect, Used(o.fs), o.chain)
      requires o.objSize <= |Sectors(o.fs, o.chain)| * 512
      requires if o.fs.fsType.EXFAT?
        then o.nFrag == 0 && (o.stat == 2 ==> |Sectors(o.fs, o.chain)| * 512 < Larger(o.objSize, 1) + o.fs.cSize * 512)
        else o.objSize <= 0xFFFF_FFFF
      ensures obj == o && forReading == reading && forWriting == writing && err.OK? && fptr == 0
      ensures fresh(buf) && Ready() && !dirty && !modified
      ensures InTable(o.fs.nFatEnt, o.chain) && data == OnDisk(o.fs, o.chain, o.fs.Logical())
    {
      hide Sectors, FatFs.Table, Bits, Used, FatFs.Logical, FatFs.Valid, Owned, Holds, Holding, OnDisk, FfObj.Linked,
        Away;
      ObjectFacts(o);
      obj, forReading, forWriting, err := o, reading, writing, OK;
      fptr, clust, sect, dirty, modified, tracked := 0, 0, 0, false, false, true;
      buf := new byte[512];
      data := OnDisk(o.fs, o.chain, o.fs.Logical());
      new;
      HoldStart(o.fs, o.chain, Used(o.fs), o.fs.Logical(), o.fs.winSect, buf[..]);
    }

    /** What the buffer stands for: a clean one that others may have made out of date, for nothing. */
    ghost function Buffer(): Cache
      reads this`sect, this`dirty, this`tracked, buf
    {
      Cache(if dirty || tracked then sect else 0, dirty, buf[..])
    }

    /** The sectors of the file hold `data`. */
    ghost predicate Core()
      reads this`sect, this`dirty, this`tracked, this`data, buf
      reads obj`stat, obj`sClust, obj`nCont, obj`nFrag, obj`chain, obj`objSize
      reads obj.fs`wFlag, obj.fs`winSect, obj.fs.win, obj.fs.disk`sec
    {
      && buf.Length == 512 && buf != obj.fs.win && sect < obj.fs.disk.size
      && obj.Linked()
      && Holding(obj.fs, obj.chain, Used(obj.fs), obj.fs.Logical(), obj.fs.winSect, data, Buffer())
      && obj.objSize <= |data| * 512
    }

    /** The current cluster is that of the file's sector k. */
    ghost predicate At(k: nat)
      requires 0 < obj.fs.cSize
      reads this`clust, obj`chain
    {
      Quot(k, obj.fs.cSize) < |obj.chain| && clust == obj.chain[Quot(k, obj.fs.cSize)]
    }

    /** Cluster and buffer are right for position p. */
    ghost predicate Positioned(p: nat)
      requires 0 < obj.fs.cSize
      reads this`clust, this`sect, obj`chain
    {
      && (p > 0 ==> At((p - 1) / 512))
      && (p % 512 != 0 ==> p / 512 < |Sectors(obj.fs, obj.chain)| && sect == Sectors(obj.fs, obj.chain)[p / 512])
    }

    /** The size says how many clusters a contiguous object has, and what is not yet on the FAT ends at the
        end of the file, where the pointer is. */
    ghost predicate Sized(p: nat)
      requires 0 < obj.fs.cSize
      reads this`clust, this`data, obj`chain, obj`objSize, obj`stat, obj`nFrag
    {
      && p <= obj.objSize
      && (obj.fs.fsType.EXFAT? && obj.stat == 2 ==> |data| * 512 < Larger(obj.objSize, 1) + obj.fs.cSize * 512)
      && (obj.fs.fsType.EXFAT? && obj.nFrag > 0 ==>
            0 < p == obj.objSize && obj.chain != [] && clust == obj.chain[|obj.chain| - 1])
      && (!obj.fs.fsType.EXFAT? ==> obj.objSize <= 0xFFFF_FFFF)
    }

    /** The buffer shows a sector of the file, or none. */
    ghost predicate Own()
      reads this`sect, obj`chain
    {
      sect == 0 || (0 < obj.fs.cSize && sect in Sectors(obj.fs, obj.chain))
    }

    lemma OwnIs()
      ensures Own() <==> sect == 0 || (0 < obj.fs.cSize && sect in Sectors(obj.fs, obj.chain))
    {
    }

    lemma OwnGrows(ch: seq<nat>, r: nat)
      requires obj.chain == ch + [r] && obj.fs.Shape() && 2 <= r < obj.fs.nFatEnt
      ensures sect == 0 || (0 < obj.fs.cSize && sect in Sectors(obj.fs, ch)) ==> Own()
    {
      hide Sectors;
      SectorsAppended(obj.fs, ch, r);
    }

    /** If the buffer shows one of the first sectors, those up to position n, it shows what the file holds. */
    ghost predicate ClearTo(n: nat)
      requires 0 < obj.fs.cSize
      reads this`sect, this`data, buf, obj`chain
    {
      Agrees(Sectors(obj.fs, obj.chain), data, sect, buf[..], n)
    }

    /** The buffer is in agreement with the file. */
    ghost predicate Clear()
      requires 0 < obj.fs.cSize
      reads this`sect, this`data, buf, obj`chain, obj`objSize
    {
      ClearTo(obj.objSize)
    }

    /** Between operations on a file without error. */
    ghost predicate Usable()
      reads this`fptr, this`clust, this`sect, this`dirty, this`tracked, this`data, this`modified, buf
      reads obj`stat, obj`sClust, obj`nCont, obj`nFrag, obj`chain, obj`objSize
      reads obj.fs`wFlag, obj.fs`winSect, obj.fs.win, obj.fs.disk`sec
    {
      Core() && Positioned(fptr) && Sized(fptr) && (dirty ==> modified)
    }

    /** The same for a file whose buffer nobody else has made out of date. */
    ghost predicate Ready()
      reads this`fptr, this`clust, this`sect, this`dirty, this`tracked, this`data, this`modified, buf
      reads obj`stat, obj`sClust, obj`nCont, obj`nFrag, obj`chain, obj`objSize
      reads obj.fs`wFlag, obj.fs`winSect, obj.fs.win, obj.fs.disk`sec
    {
      Usable() && tracked
    }

    /** The buffer of such a file is in agreement with it. */
    lemma TrackedIsClear(n: nat)
      requires Core() && (tracked || dirty)
      ensures 0 < obj.fs.cSize && ClearTo(n)
    {
      hide Sectors, FatFs.Table, Bits, Used, FatFs.Logical, Owned, Holds, Holding, FatFs.Valid;
      CoreFacts();
      forall k | 0 <= k < |data| && Sectors(obj.fs, obj.chain)[k] == sect
        ensures buf[..] == data[k]
      {
        HoldsInBuffer(obj.fs, obj.chain, Used(obj.fs), obj.fs.Logical(), obj.fs.winSect, data, Buffer(), k);
      }
    }

    /** The bytes of the file. */
    ghost function Content(): (s: seq<byte>)
      requires Core()
      reads this`sect, this`dirty, this`tracked, this`data, buf
      reads obj`stat, obj`sClust, obj`nCont, obj`nFrag, obj`chain, obj`objSize
      reads obj.fs`wFlag, obj.fs`winSect, obj.fs.win, obj.fs.disk`sec
      ensures |s| == obj.objSize
    {
      BytesOf(data, obj.objSize)
    }

    lemma CoreFacts()
      requires Core()
      ensures buf.Length == 512 && buf != obj.fs.win
      ensures obj.Linked() && obj.fs.Valid() && obj.fs.Shape() && 0 < obj.fs.cSize
      ensures Holding(obj.fs, obj.chain, Used(obj.fs), obj.fs.Logical(), obj.fs.winSect, data, Buffer())
      ensures Owned(obj.fs, Used(obj.fs), obj.chain)
      ensures InTable(obj.fs.nFatEnt, obj.chain) && Distinct(obj.chain)
      ensures |data| == |Sectors(obj.fs, obj.chain)| && obj.objSize <= |data| * 512
      ensures obj.chain != [] ==> obj.sClust == obj.chain[0]
      ensures dirty ==> sect in Sectors(obj.fs, obj.chain)
      ensures sect < obj.fs.disk.size
    {
    }

    lemma CoreIs()
      requires buf.Length == 512 && buf != obj.fs.win && obj.fs.Valid() && sect < obj.fs.disk.size
      requires obj.sClust == (if obj.chain == [] then 0 else obj.chain[0])
      requires obj.chain == [] ==> obj.Status().nFrag == 0 && obj.Status().stat != 3
      requires obj.Describes(obj.Status(), obj.chain)
      requires Holding(obj.fs, obj.chain, Used(obj.fs), obj.fs.Logical(), obj.fs.winSect, data, Buffer())
      requires obj.objSize <= |data| * 512
      ensures Core()
    {
    }

    /** What belongs to others is as it was at g, and the free count still right. */
    ghost predicate Kept(g: Start)
      requires obj.fs.Valid()
      reads obj`chain, obj.fs`freeClst, obj.fs`wFlag, obj.fs`winSect, obj.fs.win, obj.fs.disk`sec
    {
      Spared(g, Used(obj.fs), obj.chain) && OthersKept(obj.fs, g, obj.fs.Logical()) && Tables(g)
    }

    /** What one operation keeps since g: the same, and what was taken is the file's. */
    ghost predicate Since(g: Start)
      requires obj.fs.Valid()
      reads obj`chain, obj.fs`freeClst, obj.fs`wFlag, obj.fs`winSect, obj.fs.win, obj.fs.disk`sec
    {
      && Stays(g, Used(obj.fs), obj.chain) && OthersKept(obj.fs, g, obj.fs.Logical()) && Tables(g)
      && WindowAtMeta(obj.fs, g.w)
    }

    ghost predicate Tables(g: Start)
      requires obj.fs.Valid()
      reads obj.fs`freeClst, obj.fs`wFlag, obj.fs`winSect, obj.fs.win, obj.fs.disk`sec
    {
      LinksKept(g, obj.fs.Table()) && (g.counted ==> !obj.fs.fsType.EXFAT? && CountOk(obj.fs))
      && CountLives(g.free, obj.fs.freeClst, obj.fs.nFatEnt)
    }

    /** The device faults no more once its script is used up. */
    ghost predicate Quiet()
      reads obj.fs.disk`script
    {
      |obj.fs.disk.script| == 0
    }

    /** Write the buffer back if it is dirty. */
    method Flush(ghost g: Start) returns (res: FResult)
      requires Core() && Since(g)
      modifies this`dirty, this`tracked, obj.fs.disk`sec, obj.fs.disk`script
      ensures obj.fs.Valid() && OthersKept(obj.fs, g, obj.fs.Logical())
      ensures res.OK? || res.DiskErr?
      ensures Core() && Since(g) && (res.OK? ==> !dirty) && (old(tracked) ==> tracked)
      ensures old(Quiet()) ==> res.OK? && Quiet()
    {
      hide Sectors, FatFs.Table, Bits, Used, FatFs.Logical, FatFs.Valid, Owned, Holds, Holding, OthersKept, Stays, Home;
      CoreFacts();
      ghost var fs, l, ch := obj.fs, obj.fs.Logical(), obj.chain;
      res := OK;
      if dirty {
        HoldFlush(fs, ch, Used(fs), l, fs.winSect, data, Buffer());
        var ok := WriteData(obj.fs, buf[..], sect, 1);
        SplicedKeepsOthers(fs, g, Used(fs), ch, l, fs.Logical(), sect, 1);
        if !ok {
          HoldFailed(fs, ch, Used(fs), l, fs.winSect, data, Buffer(), fs.Logical());
          return DiskErr;
        }
        dirty, tracked := false, true;
      }
    }

    // -------------------------------------------------------------- f_read()

    /** Bring sector s, number k of the file, into the buffer, unless it is there. */
    method Load(s: nat, ghost k: nat, ghost g: Start) returns (res: FResult)
      requires Core() && Since(g) && k < |data| && s == Sectors(obj.fs, obj.chain)[k]
      modifies this`dirty, this`tracked, this`sect, buf, obj.fs.disk`sec, obj.fs.disk`script
      ensures obj.fs.Valid() && OthersKept(obj.fs, g, obj.fs.Logical())
      ensures res.OK? || res.DiskErr?
      ensures res.OK? ==> Core() && Since(g) && sect == s && (dirty ==> old(dirty))
      ensures old(tracked) ==> tracked
      ensures res.OK? ==> if s == old(sect) then buf[..] == old(buf[..]) else buf[..] == data[k] && tracked
      ensures res.OK? && (old(Clear()) || s != old(sect)) ==> Clear()
      ensures old(Quiet()) ==> res.OK? && Quiet()
    {
      hide Sectors, FatFs.Table, Bits, Used, FatFs.Logical, Owned, Holds, Holding, OthersKept, Stays, Home, FatFs.Valid,
        Agrees;
      CoreFacts();
      res := OK;
      if sect != s {
        res := Flush(g);
        if !res.OK? {
          return;
        }
        CoreFacts();
        ghost var fs, l, ch := obj.fs, obj.fs.Logical(), obj.chain;
        HoldLoad(fs, ch, Used(fs), l, fs.winSect, data, Buffer(), k);
        var ok := ReadData(obj.fs, buf, 0, s, 1);
        if !ok {
          return DiskErr;
        }
        assert buf[..] == data[k];
        sect, tracked := s, true;
        TrackedIsClear(obj.objSize);
      }
    }

    /** get_fat() can follow cluster number i: the size is right, and i is on the FAT or the last one. */
    lemma CanFollow(i: nat)
      requires Core() && obj.objSize > 0 && i < |obj.chain|
      requires obj.fs.fsType.EXFAT? && obj.stat == 2 ==> |data| * 512 < obj.objSize + obj.fs.cSize * 512
      requires obj.fs.fsType.EXFAT? && obj.nFrag > 0 ==> i + 1 == |obj.chain|
      ensures obj.Followable(i)
    {
      hide Sectors, FatFs.Table, Bits, Used, FatFs.Logical, Owned, Holding, FatFs.Valid;
      CoreFacts();
      SizePositive(obj);
      if obj.fs.fsType.EXFAT? && obj.stat == 2 {
        SectorAt(obj.fs, obj.chain, 0);
        ContiguousFits(obj.fs, obj.fs.Table(), obj.Status(), obj.chain);
        LastOf((obj.objSize - 1) / 512, |obj.chain|, obj.fs.cSize);
      }
    }

    lemma ContiguousFits(fs: FatFs, t: seq<nat>, a: Alloc, ch: seq<nat>)
      requires fs.Shape() && Holds(t, a, ch) && a.stat == 2 && |t| == fs.nFatEnt
      ensures Prod(|ch|, fs.cSize) < INVALID
    {
      LastFragBelow(t, a, ch);
      ClustersFit(fs, |ch|);
    }

    /** The file is as it was, the FAT and the bitmap may have changed. */
    lemma CoreAfter(l: seq<Sector>, w: nat, q: bool, u: seq<bool>, g: Start)
      requires buf.Length == 512 && buf != obj.fs.win && sect < obj.fs.disk.size
      requires obj.Linked() && obj.objSize <= |data| * 512
      requires Used(obj.fs) == u && Holding(obj.fs, obj.chain, u, l, w, data, Buffer())
      requires MetaStep(obj.fs, l, w, q) && Stays(g, u, obj.chain) && OthersKept(obj.fs, g, l)
      requires obj.fs.Valid() && Tables(g) && Aside(obj.fs, g.w, w)
      ensures Core() && Since(g)
    {
      hide Tables, Sectors, FatFs.Table, Bits, FatFs.Logical, Owned, Holding, FatFs.Valid, Used, Holds, SameData,
        OthersKept, Stays;
      MetaFacts(obj.fs, l, w, q);
      HoldsThroughMeta(obj.fs, obj.chain, u, l, w, data, Buffer(), obj.fs.Logical(), obj.fs.winSect);
      MetaKeepsOthers(obj.fs, g, l, obj.fs.Logical());
    }

    /** A free count to keep right is right. */
    ghost predicate Counted(u: seq<bool>, free: nat, g: Start)
      requires |u| == obj.fs.nFatEnt
    {
      && (g.counted ==> !obj.fs.fsType.EXFAT? && (free <= obj.fs.nFatEnt - 2 ==> free == Unused(u, obj.fs.nFatEnt)))
      && CountLives(g.free, free, obj.fs.nFatEnt)
    }

    lemma SinceParts(g: Start)
      requires obj.fs.Valid() && Since(g)
      ensures Stays(g, Used(obj.fs), obj.chain) && OthersKept(obj.fs, g, obj.fs.Logical())
      ensures LinksKept(g, obj.fs.Table()) && Counted(Used(obj.fs), obj.fs.freeClst, g)
      ensures obj.fs.Shape() && Aside(obj.fs, g.w, obj.fs.winSect)
    {
      hide FatFs.Table, FatFs.Logical, Bits;
    }

    lemma SinceIs(u: seq<bool>, t: seq<nat>, free: nat, g: Start)
      requires obj.fs.Valid() && Used(obj.fs) == u && obj.fs.Table() == t && obj.fs.freeClst == free
      requires Stays(g, u, obj.chain) && OthersKept(obj.fs, g, obj.fs.Logical()) && LinksKept(g, t)
      requires Counted(u, free, g) && Aside(obj.fs, g.w, obj.fs.winSect)
      ensures Since(g)
    {
      hide FatFs.Table, FatFs.Logical, Bits;
    }

    /** The same, when FAT, use of clusters and free count are as they were. */
    lemma CoreSince(l: seq<Sector>, w: nat, q: bool, u: seq<bool>, t: seq<nat>, free: nat, g: Start)
      requires buf.Length == 512 && buf != obj.fs.win && sect < obj.fs.disk.size
      requires obj.Linked() && obj.objSize <= |data| * 512
      requires obj.fs.Valid() && Used(obj.fs) == u && obj.fs.Table() == t && obj.fs.freeClst == free
      requires Holding(obj.fs, obj.chain, u, l, w, data, Buffer()) && MetaStep(obj.fs, l, w, q)
      requires Stays(g, u, obj.chain) && OthersKept(obj.fs, g, l) && LinksKept(g, t) && Counted(u, free, g)
      requires Aside(obj.fs, g.w, w)
      ensures Core() && Since(g)
    {
      hide Sectors, FatFs.Table, Bits, FatFs.Logical, Owned, Holding, FatFs.Valid, Used, Holds, SameData, OthersKept,
        Stays, MetaStep, LinksKept;
      CoreAfter(l, w, q, u, g);
    }

    lemma QuietIs()
      ensures Quiet() <==> |obj.fs.disk.script| == 0
    {
    }

    lemma ReadyFacts()
      requires Usable()
      ensures obj.fs.Valid() && 0 < obj.fs.cSize && Core() && Positioned(fptr) && Sized(fptr) && (dirty ==> modified)
    {
      hide Core;
      CoreFacts();
    }

    lemma ReadyIs()
      requires 0 < obj.fs.cSize && Core() && Positioned(fptr) && Sized(fptr) && (dirty ==> modified)
      ensures Usable() && (tracked ==> Ready())
    {
    }

    lemma ReadyParts()
      ensures Ready() <==> Usable() && tracked
      ensures Ready() ==> 0 < obj.fs.cSize && Clear()
    {
      hide Usable, Clear;
      if Ready() {
        ReadyFacts();
        TrackedIsClear(obj.objSize);
        ClearAt();
      }
    }

    lemma ClearAt()
      requires 0 < obj.fs.cSize
      ensures Clear() <==> ClearTo(obj.objSize)
    {
    }

    /** The cluster of sector k, the first of its cluster, when reading. */
    method FollowRead(ghost k: nat, ghost g: Start) returns (res: FResult)
      requires Core() && Since(g) && Positioned(fptr) && Sized(fptr) && fptr < obj.objSize
      requires fptr == k * 512 && Rem(k, obj.fs.cSize) == 0
      modifies this`clust, obj.fs`wFlag, obj.fs`winSect, obj.fs.win, obj.fs.disk`sec, obj.fs.disk`script
      ensures obj.fs.Valid() && OthersKept(obj.fs, g, obj.fs.Logical())
      ensures res.OK? || res.DiskErr?
      ensures res.OK? ==> Core() && Since(g) && At(k)
      ensures old(Quiet()) ==> res.OK? && Quiet()
    {
      hide Sectors, FatFs.Table, Bits, Used, FatFs.Logical, Owned, Holds, Holding, OthersKept, Stays, FatFs.Valid,
        Quot, Rem, FfObj.Followable, MetaStep, Core, Since, FfObj.Linked, FatFs.Shape, Distinct, Mask;
      CoreFacts();
      SinceFacts(g);
      SectorAt(obj.fs, obj.chain, k);
      ChainInTable(obj);
      EntriesFit(obj.fs);
      Unique(0, 0, obj.fs.cSize);
      res := OK;
      var clst;
      if fptr == 0 {
        clst := obj.sClust;
      } else {
        StepBack(k, obj.fs.cSize);
        CanFollow(Quot(k - 1, obj.fs.cSize));
        clst := FollowOn(Quot(k - 1, obj.fs.cSize), g);
        SinceFacts(g);
      }
      if clst < 2 {
        return IntErr;
      }
      if clst == INVALID {
        return DiskErr;
      }
      clust := clst;
    }

    /** Read cc sectors of one cluster, from sector s, number k of the file, into buff; one that is dirty in
        the buffer replaces what the disk holds. */
    method DirectRead(buff: array<byte>, at: nat, s: nat, cc: nat, ghost k: nat) returns (res: FResult)
      requires Core() && buff != buf && buff != obj.fs.win && at + cc * 512 <= buff.Length
      requires k < |data| && s == Sectors(obj.fs, obj.chain)[k] && 0 < cc && Rem(k, obj.fs.cSize) + cc <= obj.fs.cSize
      modifies buff, obj.fs.disk`script
      ensures obj.fs.Valid() && obj.fs.Logical() == old(obj.fs.Logical())
      ensures res.OK? || res.DiskErr?
      ensures res.OK? ==> k + cc <= |data|
      ensures res.OK? ==> forall j | at <= j < at + cc * 512 :: buff[j] == ByteAt(data, k * 512 + (j - at))
      ensures forall j | 0 <= j < at || at + cc * 512 <= j < buff.Length :: buff[j] == old(buff[j])
      ensures old(Quiet()) ==> res.OK? && Quiet()
    {
      hide Sectors, FatFs.Table, Bits, Used, FatFs.Logical, Owned, Holds, Holding, FatFs.Valid, Rem;
      CoreFacts();
      ghost var l := obj.fs.Logical();
      HoldsRow(obj.fs, obj.chain, Used(obj.fs), l, obj.fs.winSect, data, Buffer(), k, cc);
      SectorBounds(obj.fs);
      var ok := ReadData(obj.fs, buff, at, s, cc);
      if !ok {
        return DiskErr;
      }
      if dirty {
        Within32(sect, s, cc);
      }
      if dirty && Sub32(sect, s) < cc {
        MemCpy(buff, at + Sub32(sect, s) * 512, buf[..]);
      }
      forall j | at <= j < at + cc * 512
        ensures buff[j] == ByteAt(data, k * 512 + (j - at))
      {
        var i := k + (j - at) / 512;
        assert data[i] == if dirty && sect == s + (i - k) then buf[..] else l[s + (i - k)];
      }
      res := OK;
    }

    /** The sector number k of the file, of which csect is the offset in the current cluster. */
    method CurrentSector(csect: nat, ghost k: nat) returns (s: nat)
      requires Core() && At(k) && csect == Rem(k, obj.fs.cSize)
      ensures k < |data| && s == Sectors(obj.fs, obj.chain)[k] && s != 0
    {
      hide Sectors, FatFs.Table, Bits, Used, FatFs.Logical, Owned, Holds, Holding, FatFs.Valid, Rem, Quot, Prod;
      CoreFacts();
      SectorAt(obj.fs, obj.chain, k);
      ChainInTable(obj);
      DataArea();
      EntriesFit(obj.fs);
      s := Clst2Sect(obj.fs, clust);
      s := s + csect;
    }

    lemma DataArea()
      requires Core()
      ensures 0 < obj.fs.dataBase
    {
    }

    /** Moving on by whole sectors of the current cluster, or inside the sector in the buffer. */
    lemma Advanced(p: nat, n: nat, cc: nat)
      requires 0 < obj.fs.cSize && At(p / 512) && 0 < n
      requires if p % 512 == 0 && n == cc * 512 then Rem(p / 512, obj.fs.cSize) + cc <= obj.fs.cSize
        else p % 512 + n <= 512 && p / 512 < |Sectors(obj.fs, obj.chain)| && sect == Sectors(obj.fs, obj.chain)[p / 512]
      ensures Positioned(p + n)
    {
      hide Sectors, Rem, Quot;
      if p % 512 == 0 && n == cc * 512 {
        Within(p / 512, cc - 1, obj.fs.cSize);
        assert (p + n - 1) / 512 == p / 512 + (cc - 1);
      } else {
        assert (p + n - 1) / 512 == p / 512;
      }
    }

    /** The current cluster is that of the sector the pointer is in. */
    lemma InCurrent(p: nat)
      requires 0 < obj.fs.cSize && Positioned(p)
      requires p % 512 == 0 ==> Rem(p / 512, obj.fs.cSize) != 0
      ensures At(p / 512)
      ensures p % 512 != 0 ==>
                p / 512 < |Sectors(obj.fs, obj.chain)| && sect == Sectors(obj.fs, obj.chain)[p / 512]
    {
      hide Sectors, Rem, Quot;
      Unique(0, 0, obj.fs.cSize);
      if p % 512 == 0 {
        StepBack(p / 512, obj.fs.cSize);
        assert (p - 1) / 512 == p / 512 - 1;
      } else {
        assert (p - 1) / 512 == p / 512;
      }
    }

    /** The sector at the pointer, number k of the file, and its offset in its cluster. */
    method LocateRead(ghost k: nat, ghost g: Start) returns (res: FResult, csect: nat, s: nat)
      requires Core() && Since(g) && Positioned(fptr) && Sized(fptr) && fptr < obj.objSize && fptr == k * 512
      modifies this`clust, obj.fs`wFlag, obj.fs`winSect, obj.fs.win, obj.fs.disk`sec, obj.fs.disk`script
      ensures obj.fs.Valid() && OthersKept(obj.fs, g, obj.fs.Logical())
      ensures res.OK? || res.DiskErr?
      ensures res.OK? ==> Core() && Since(g) && At(k) && csect == Rem(k, obj.fs.cSize)
      ensures res.OK? ==> k < |data| && s == Sectors(obj.fs, obj.chain)[k]
      ensures old(Quiet()) ==> res.OK? && Quiet()
    {
      hide Sectors, FatFs.Table, Bits, Used, FatFs.Logical, Owned, Holds, Holding, FatFs.Valid, Rem, Quot, Prod,
        OthersKept, Stays, FfObj.Linked, FatFs.Shape, InTable, Distinct, Core, At;
      CoreFacts();
      res, s := OK, 0;
      csect := Rem(fptr / 512, obj.fs.cSize);
      if csect == 0 {
        res := FollowRead(k, g);
        if !res.OK? {
          return;
        }
      } else {
        InCurrent(fptr);
      }
      s := CurrentSector(csect, k);
    }

    /** What the file's sector k is by way of the buffer. */
    ghost function Seen(k: nat): seq<byte>
      requires 0 < obj.fs.cSize && k < |data| && k < |Sectors(obj.fs, obj.chain)|
      reads this`sect, this`data, buf, obj`chain
    {
      if sect == Sectors(obj.fs, obj.chain)[k] then buf[..] else data[k]
    }

    /** What one turn of f_read() delivers of the n bytes from position p on: whole sectors come from the disk, others
        by way of the buffer, where the sector at p is `seen`. */
    ghost predicate Delivers(got: seq<byte>, p: nat, n: nat, seen: seq<byte>)
      reads this`data
    {
      if p % 512 == 0 && n >= 512
      then |got| % 512 == 0 && p + |got| <= |data| * 512 && forall j | 0 <= j < |got| :: got[j] == ByteAt(data, p + j)
      else |seen| == 512 && |got| == Smaller(n, 512 - p % 512) && got == seen[p % 512..p % 512 + |got|]
    }

    lemma SeenIs(k: nat)
      requires Core() && k < |data|
      ensures 0 < obj.fs.cSize && k < |Sectors(obj.fs, obj.chain)|
      ensures Seen(k) == if sect == Sectors(obj.fs, obj.chain)[k] then buf[..] else data[k]
      ensures Clear() && k * 512 < obj.objSize ==> Seen(k) == data[k]
    {
      hide Sectors, FatFs.Table, Bits, Used, FatFs.Logical, Owned, Holds, Holding, FatFs.Valid;
      CoreFacts();
    }

    lemma DeliveredClear(got: seq<byte>, p: nat, n: nat, seen: seq<byte>)
      requires Delivers(got, p, n, seen) && p / 512 < |data|
      requires seen == data[p / 512]
      ensures p + |got| <= |data| * 512 && forall j | 0 <= j < |got| :: got[j] == ByteAt(data, p + j)
    {
      if !(p % 512 == 0 && n >= 512) {
        RangeInSector(data, p, |got|);
        assert got == Range(data, p, |got|);
      }
    }

    /** Read the whole sectors among the next count that lie in the current cluster. */
    method ReadWhole(buff: array<byte>, at: nat, count: nat, csect: nat, s: nat, ghost k: nat)
      returns (res: FResult, rcnt: nat)
      requires Core() && buff != buf && buff != obj.fs.win && at + count * 512 <= buff.Length && 0 < count
      requires fptr == k * 512 && At(k) && csect == Rem(k, obj.fs.cSize) && k < |data|
      requires s == Sectors(obj.fs, obj.chain)[k]
      modifies buff, obj.fs.disk`script
      ensures obj.fs.Valid() && obj.fs.Logical() == old(obj.fs.Logical())
      ensures res.OK? || res.DiskErr?
      ensures res.OK? ==> 0 < rcnt <= count * 512 && rcnt % 512 == 0 && Positioned(fptr + rcnt)
      ensures res.OK? ==> fptr + rcnt <= |data| * 512
      ensures res.OK? ==> forall j | at <= j < at + rcnt :: buff[j] == ByteAt(data, fptr + (j - at))
      ensures res.OK? ==> forall j | 0 <= j < at :: buff[j] == old(buff[j])
      ensures old(Quiet()) ==> res.OK? && Quiet()
    {
      hide Sectors, FatFs.Table, Bits, Used, FatFs.Logical, Owned, Holds, Holding, FatFs.Valid, Rem, Quot, Prod,
        FfObj.Linked, FatFs.Shape, InTable, Distinct, Core, At, Positioned, ByteAt;
      CoreFacts();
      var cc := count;
      if csect + cc > obj.fs.cSize {
        cc := obj.fs.cSize - csect;
      }
      rcnt := 512 * cc;
      res := DirectRead(buff, at, s, cc, k);
      if res.OK? {
        Advanced(fptr, rcnt, cc);
      }
    }

    /** Read what there is of the next btr bytes in the sector in the buffer. */
    method ReadPart(buff: array<byte>, at: nat, btr: nat, ghost k: nat) returns (rcnt: nat)
      requires Core() && At(k) && k == fptr / 512 < |data| && sect == Sectors(obj.fs, obj.chain)[k]
      requires buff != buf && buff != obj.fs.win && at + btr <= buff.Length && 0 < btr
      requires fptr % 512 != 0 || btr < 512
      modifies buff
      ensures 0 < rcnt <= btr && Positioned(fptr + rcnt)
      ensures Delivers(buff[at..at + rcnt], fptr, btr, buf[..])
      ensures forall j | 0 <= j < at :: buff[j] == old(buff[j])
    {
      hide Sectors, FatFs.Table, Bits, Used, FatFs.Logical, Owned, Holds, Holding, FatFs.Valid, Rem, Quot, Prod,
        FfObj.Linked, FatFs.Shape, InTable, Distinct, Core, At, Positioned, ByteAt;
      CoreFacts();
      rcnt := 512 - fptr % 512;
      if rcnt > btr {
        rcnt := btr;
      }
      MemCpy(buff, at, buf[fptr % 512..fptr % 512 + rcnt]);
      assert buff[at..at + rcnt] == buf[..][fptr % 512..fptr % 512 + rcnt];
      Advanced(fptr, rcnt, 0);
    }

    /** One turn of the loop of f_read() at the start of sector k. */
    method ReadBorder(buff: array<byte>, at: nat, btr: nat, ghost k: nat, ghost g: Start)
      returns (res: FResult, rcnt: nat)
      requires Core() && Since(g) && Positioned(fptr) && Sized(fptr) && fptr == k * 512 && fptr < obj.objSize
      requires buff != buf && buff != obj.fs.win && at + btr <= buff.Length && 0 < btr
      modifies this`clust, this`sect, this`dirty, this`tracked, buf, buff
      modifies obj.fs`wFlag, obj.fs`winSect, obj.fs.win, obj.fs.disk`sec, obj.fs.disk`script
      ensures obj.fs.Valid() && OthersKept(obj.fs, g, obj.fs.Logical())
      ensures res.OK? || res.DiskErr?
      ensures res.OK? ==> Core() && Since(g) && 0 < rcnt <= btr && Positioned(fptr + rcnt) && (dirty ==> old(dirty))
      ensures res.OK? ==> k < |data| && Delivers(buff[at..at + rcnt], fptr, btr, old(Seen(k)))
      ensures res.OK? ==> forall j | 0 <= j < at :: buff[j] == old(buff[j])
      ensures res.OK? && old(Own()) ==> Own()
      ensures (old(tracked) ==> tracked) && (res.OK? && old(Clear()) ==> Clear())
      ensures old(Quiet()) ==> res.OK? && Quiet()
    {
      hide *;
      CoreFacts();
      rcnt := 0;
      var csect, s;
      res, csect, s := LocateRead(k, g);
      if !res.OK? {
        return;
      }
      CoreFacts();
      SeenIs(k);
      SinceFacts(g);
      var cc := btr / 512;
      if cc > 0 {
        res, rcnt := ReadWhole(buff, at, cc, csect, s, k);
        if res.OK? {
          DeliveredWhole(buff[at..at + rcnt], fptr, btr, old(Seen(k)));
        }
        return;
      }
      res := Load(s, k, g);
      if res.OK? {
        CoreFacts();
        OwnIs();
        rcnt := ReadPart(buff, at, btr, k);
      }
    }

    lemma DeliveredWhole(got: seq<byte>, p: nat, n: nat, seen: seq<byte>)
      requires p % 512 == 0 && n >= 512 && |got| % 512 == 0 && p + |got| <= |data| * 512
      requires forall j | 0 <= j < |got| :: got[j] == ByteAt(data, p + j)
      ensures Delivers(got, p, n, seen)
    {
    }

    /** One turn of the loop of f_read(): rcnt of the btr bytes that remain go to buff[at..], from the disk if they
        are whole sectors, otherwise by way of the buffer. */
    method ReadStep(buff: array<byte>, at: nat, btr: nat, ghost g: Start) returns (res: FResult, rcnt: nat)
      requires Core() && Since(g) && Positioned(fptr) && Sized(fptr)
      requires buff != buf && buff != obj.fs.win && at + btr <= buff.Length && 0 < btr <= obj.objSize - fptr
      modifies this`clust, this`sect, this`dirty, this`tracked, buf, buff
      modifies obj.fs`wFlag, obj.fs`winSect, obj.fs.win, obj.fs.disk`sec, obj.fs.disk`script
      ensures obj.fs.Valid() && OthersKept(obj.fs, g, obj.fs.Logical())
      ensures res.OK? || res.DiskErr?
      ensures res.OK? ==> Core() && Since(g) && 0 < rcnt <= btr && Positioned(fptr + rcnt) && (dirty ==> old(dirty))
      ensures res.OK? ==> Delivers(buff[at..at + rcnt], fptr, btr, old(Seen(fptr / 512)))
      ensures res.OK? && old(Clear()) ==> forall j | at <= j < at + rcnt :: buff[j] == ByteAt(data, fptr + (j - at))
      ensures res.OK? ==> forall j | 0 <= j < at :: buff[j] == old(buff[j])
      ensures res.OK? && old(Own()) ==> Own()
      ensures (old(tracked) ==> tracked) && (res.OK? && old(Clear()) ==> Clear())
      ensures old(Quiet()) ==> res.OK? && Quiet()
    {
      hide *;
      CoreFacts();
      SinceFacts(g);
      rcnt := 0;
      res := OK;
      ghost var k := fptr / 512;
      SeenIs(k);
      if fptr % 512 == 0 {
        res, rcnt := ReadBorder(buff, at, btr, k, g);
      } else {
        InCurrent(fptr);
        rcnt := ReadPart(buff, at, btr, k);
      }
      if res.OK? && old(Clear()) {
        ghost var got := buff[at..at + rcnt];
        DeliveredClear(got, fptr, btr, old(Seen(fptr / 512)));
        assert forall j | at <= j < at + rcnt :: buff[j] == got[j - at];
      }
    }

    /** Before the end of the file nothing is deferred. */
    lemma SizedInside(p: nat)
      requires 0 < obj.fs.cSize && Sized(p) && p < obj.objSize
      ensures obj.fs.fsType.EXFAT? ==> obj.nFrag == 0
      ensures obj.fs.fsType.EXFAT? && obj.stat == 2 ==> |data| * 512 < Larger(obj.objSize, 1) + obj.fs.cSize * 512
      ensures !obj.fs.fsType.EXFAT? ==> obj.objSize <= 0xFFFF_FFFF
    {
    }

    lemma SizedThere(p: nat)
      requires 0 < obj.fs.cSize && p <= obj.objSize
      requires obj.fs.fsType.EXFAT? ==> obj.nFrag == 0
      requires obj.fs.fsType.EXFAT? && obj.stat == 2 ==> |data| * 512 < Larger(obj.objSize, 1) + obj.fs.cSize * 512
      requires !obj.fs.fsType.EXFAT? ==> obj.objSize <= 0xFFFF_FFFF
      ensures Sized(p)
    {
    }

    lemma DeliveredLength(got: seq<byte>, p: nat, n: nat, seen: seq<byte>)
      requires Delivers(got, p, n, seen) && 0 < |got| <= n && p % 512 + n <= 512
      ensures |got| == n
    {
    }

    /** ReadStep, and the pointer behind what was read. */
    method ReadTurn(buff: array<byte>, at: nat, btr: nat, ghost g: Start) returns (res: FResult, rcnt: nat)
      requires Core() && Since(g) && Positioned(fptr) && Sized(fptr) && (dirty ==> modified)
      requires buff != buf && buff != obj.fs.win && at + btr <= buff.Length && 0 < btr <= obj.objSize - fptr
      modifies this`fptr, this`clust, this`sect, this`dirty, this`tracked, buf, buff
      modifies obj.fs`wFlag, obj.fs`winSect, obj.fs.win, obj.fs.disk`sec, obj.fs.disk`script
      ensures obj.fs.Valid() && OthersKept(obj.fs, g, obj.fs.Logical())
      ensures res.OK? || res.DiskErr?
      ensures res.OK? ==> Core() && Since(g) && Positioned(fptr) && Sized(fptr) && (dirty ==> modified)
      ensures res.OK? ==> 0 < rcnt <= btr && fptr == old(fptr) + rcnt
      ensures res.OK? ==> Delivers(buff[at..at + rcnt], old(fptr), btr, old(Seen(fptr / 512)))
      ensures res.OK? && old(fptr) % 512 + btr <= 512 ==> rcnt == btr
      ensures res.OK? && old(Clear()) ==>
                forall j | at <= j < at + rcnt :: buff[j] == ByteAt(data, old(fptr) + (j - at))
      ensures res.OK? ==> forall j | 0 <= j < at :: buff[j] == old(buff[j])
      ensures res.OK? && old(Own()) ==> Own()
      ensures (old(tracked) ==> tracked) && (res.OK? && old(Clear()) ==> Clear())
      ensures old(Quiet()) ==> res.OK? && Quiet()
    {
      hide *;
      CoreFacts();
      SizedFacts(fptr);
      SizedInside(fptr);
      SeenIs(fptr / 512);
      res, rcnt := ReadStep(buff, at, btr, g);
      if res.OK? {
        if fptr % 512 + btr <= 512 {
          DeliveredLength(buff[at..at + rcnt], fptr, btr, old(Seen(fptr / 512)));
        }
        fptr := fptr + rcnt;
        SizedThere(fptr);
      }
    }

    /** The loop of f_read(): read the next n bytes of the file. */
    method ReadLoop(buff: array<byte>, n: nat, ghost g: Start) returns (res: FResult, br: nat)
      requires Core() && Since(g) && Positioned(fptr) && Sized(fptr) && (dirty ==> modified)
      requires buff != buf && buff != obj.fs.win && n <= buff.Length && n <= obj.objSize - fptr
      modifies this`fptr, this`clust, this`sect, this`dirty, this`tracked, buf, buff
      modifies obj.fs`wFlag, obj.fs`winSect, obj.fs.win, obj.fs.disk`sec, obj.fs.disk`script
      ensures obj.fs.Valid() && OthersKept(obj.fs, g, obj.fs.Logical())
      ensures res.OK? || res.DiskErr?
      ensures res.OK? ==> Core() && Since(g) && Positioned(fptr) && Sized(fptr) && (dirty ==> modified)
      ensures res.OK? ==> br == n && fptr == old(fptr) + n
      ensures res.OK? && old(Clear()) ==> forall j | 0 <= j < n :: buff[j] == ByteAt(data, old(fptr) + j)
      ensures res.OK? && 0 < n && old(fptr) % 512 + n <= 512 ==>
                Delivers(buff[..n], old(fptr), n, old(Seen(fptr / 512)))
      ensures res.OK? && old(Own()) ==> Own()
      ensures (old(tracked) ==> tracked) && (res.OK? && old(Clear()) ==> Clear())
      ensures old(Quiet()) ==> res.OK? && Quiet()
    {
      hide *;
      CoreFacts();
      SinceFacts(g);
      SizedFacts(fptr);
      res, br := OK, 0;
      while br < n
        invariant (old(Own()) ==> Own()) && (old(tracked) ==> tracked) && (old(Clear()) ==> Clear())
        invariant res.OK? && obj.fs.Valid() && OthersKept(obj.fs, g, obj.fs.Logical())
        invariant Core() && Since(g) && Positioned(fptr) && Sized(fptr) && (dirty ==> modified)
        invariant br <= n && fptr == old(fptr) + br
        invariant old(Clear()) ==> forall j | 0 <= j < br :: buff[j] == ByteAt(data, old(fptr) + j)
        invariant br == 0 ==> unchanged(this`sect, buf)
        invariant 0 < br && old(fptr) % 512 + n <= 512 ==>
                    br == n && Delivers(buff[..br], old(fptr), n, old(Seen(fptr / 512)))
        invariant old(Quiet()) ==> Quiet()
      {
        SizedFacts(fptr);
        var rcnt;
        res, rcnt := ReadTurn(buff, br, n - br, g);
        if !res.OK? {
          return;
        }
        br := br + rcnt;
      }
    }

    /** f_read(): read up to btr bytes at the pointer into buff; br of them were read. */
    method Read(buff: array<byte>, btr: nat) returns (res: FResult, br: nat)
      requires err.OK? ==> Usable()
      requires buff != buf && buff != obj.fs.win && btr <= buff.Length
      modifies this`err, this`fptr, this`clust, this`sect, this`dirty, this`tracked, buf, buff
      modifies obj.fs`wFlag, obj.fs`winSect, obj.fs.win, obj.fs.disk`sec, obj.fs.disk`script
      ensures res == if !old(err).OK? then old(err) else if !forReading then Denied else err
      ensures err == old(err) || err.DiskErr?
      ensures err.OK? ==> Usable() && Since(old(Now()))
      ensures res.OK? ==> Content() == old(Content()) && br == Smaller(btr, |old(Content())| - old(fptr))
      ensures res.OK? ==> fptr == old(fptr) + br
      ensures res.OK? && old(Clear()) ==> buff[..br] == Content()[old(fptr)..fptr]
      ensures res.OK? && 0 < br == btr && old(fptr) % 512 + btr <= 512 ==>
                Delivers(buff[..br], old(fptr), btr, old(Seen(fptr / 512)))
      ensures old(err).OK? && !forReading ==> err.OK? && fptr == old(fptr) && Content() == old(Content())
      ensures old(err).OK? ==> obj.fs.Valid() && OthersKept(obj.fs, old(Now()), obj.fs.Logical())
      ensures err.OK? && old(Own()) ==> Own()
      ensures (old(tracked) ==> tracked) && (old(err).OK? && err.OK? && old(Clear()) ==> Clear())
      ensures old(Quiet()) ==> Quiet() && (old(err).OK? && forReading ==> res.OK?)
    {
      hide Sectors, FatFs.Table, Bits, Used, FatFs.Logical, Owned, Holds, Holding, FatFs.Valid, OthersKept, Stays,
        FfObj.Linked, FatFs.Shape, Core, At, Positioned, Agrees, Delivers, Since, Own, Seen;
      br := 0;
      res := err;
      if !res.OK? {
        return;
      }
      CoreFacts();
      ghost var g := Now();
      NowSince();
      SinceFacts(g);
      if !forReading {
        return Denied, 0;
      }
      ghost var n := Smaller(btr, obj.objSize - fptr);
      res, br := ReadLoop(buff, Smaller(btr, obj.objSize - fptr), g);
      if !res.OK? {
        err := res;
      }
    }

    lemma BufferShows(k: nat)
      requires Core() && k < |data| && sect == Sectors(obj.fs, obj.chain)[k] && k * 512 < obj.objSize && Clear()
      ensures buf[..] == data[k]
    {
      hide Sectors, FatFs.Table, Bits, Used, FatFs.Logical, Owned, Holds, Holding, FatFs.Valid;
      CoreFacts();
    }

    lemma SizedFacts(p: nat)
      requires 0 < obj.fs.cSize && Sized(p)
      ensures p <= obj.objSize && (!obj.fs.fsType.EXFAT? ==> obj.objSize <= 0xFFFF_FFFF)
    {
    }

    lemma PointerInFile()
      requires Usable()
      ensures fptr <= obj.objSize && (!obj.fs.fsType.EXFAT? ==> obj.objSize <= 0xFFFF_FFFF)
    {
    }

    /** The state of the volume and the file, to compare with later. */
    ghost function Now(): Start
      requires obj.fs.Valid()
      reads obj`chain, obj.fs`freeClst, obj.fs`wFlag, obj.fs`winSect, obj.fs.win, obj.fs.disk`sec
    {
      Start(Used(obj.fs), obj.chain, obj.fs.Logical(), obj.fs.winSect, obj.fs.Table(), obj.fs.freeClst,
        !obj.fs.fsType.EXFAT? && CountOk(obj.fs))
    }

    lemma SinceFacts(g: Start)
      requires obj.fs.Valid() && Since(g)
      ensures OthersKept(obj.fs, g, obj.fs.Logical())
    {
    }

    lemma NowSince()
      requires obj.fs.Valid()
      ensures Since(Now())
    {
    }

    // -------------------------------------------------------------- f_write()

    /** No cluster is free, or the free count says so. */
    ghost predicate NoRoom()
      requires obj.fs.Valid()
      reads obj.fs`freeClst, obj.fs`wFlag, obj.fs`winSect, obj.fs.win, obj.fs.disk`sec
    {
      obj.fs.freeClst == 0 || AllUsed(Used(obj.fs))
    }

    /** Some FAT entry has the value 1, which no chain has. */
    ghost predicate BadEntry()
      requires obj.fs.Valid()
      reads obj.fs`wFlag, obj.fs`winSect, obj.fs.win, obj.fs.disk`sec
    {
      exists c | 2 <= c < obj.fs.nFatEnt :: obj.fs.Table()[c] == 1
    }

    lemma BadIs()
      requires obj.fs.Valid()
      ensures WasBroken(Now()) <==> BadEntry()
    {
    }

    /** create_chain() has put the new cluster r behind the chain ch; before, the clusters u were in use, the FAT
        was t, the logical disk l, and the window at sector w. */
    ghost predicate GrownFrom(ch: seq<nat>, u: seq<bool>, t: seq<nat>, l: seq<Sector>, w: nat, q: bool, r: nat,
      g: Start)
      reads obj`stat, obj`nCont, obj`nFrag, obj`chain, obj.fs`freeClst
      reads obj.fs`wFlag, obj.fs`winSect, obj.fs.win, obj.fs.disk`sec, obj.fs.disk`script
    {
      && obj.fs.Valid() && MetaStep(obj.fs, l, w, q)
      && Stays(g, u, ch) && OthersKept(obj.fs, g, l) && LinksKept(g, t) && Aside(obj.fs, g.w, w)
      && SameElsewhere(t, obj.fs.Table(), ch, r) && (g.counted ==> !obj.fs.fsType.EXFAT? && CountOk(obj.fs))
      && CountLives(g.free, obj.fs.freeClst, obj.fs.nFatEnt)
      && 2 <= r < obj.fs.nFatEnt == |u| && !u[r] && Used(obj.fs) == u[r := true]
      && obj.chain == ch + [r] && obj.Describes(obj.Status(), obj.chain)
    }

    lemma GrownFacts(ch: seq<nat>, u: seq<bool>, t: seq<nat>, l: seq<Sector>, w: nat, q: bool, r: nat, g: Start)
      requires GrownFrom(ch, u, t, l, w, q, r, g)
      ensures obj.fs.Valid() && obj.fs.Shape() && 2 <= r < obj.fs.nFatEnt && obj.chain == ch + [r]
      ensures obj.fs.SectorOf(r) + obj.fs.cSize <= |obj.fs.Logical()|
    {
      ClusterFits(obj.fs, r);
    }

    /** The file with the chain ch and the sectors d, once it is given the new cluster r. */
    lemma CoreGrown(ch: seq<nat>, u: seq<bool>, t: seq<nat>, l: seq<Sector>, w: nat, q: bool, d: seq<Sector>, r: nat,
      g: Start)
      requires buf.Length == 512 && buf != obj.fs.win && sect < obj.fs.disk.size && GrownFrom(ch, u, t, l, w, q, r, g)
      requires Holding(obj.fs, ch, u, l, w, d, Buffer())
      requires obj.fs.Shape() && |u| == obj.fs.nFatEnt && Owned(obj.fs, u, ch)
      requires obj.objSize <= |d| * 512 && obj.sClust == obj.chain[0]
      requires obj.fs.SectorOf(r) + obj.fs.cSize <= |obj.fs.Logical()|
      requires data == d + ClusterData(obj.fs, obj.fs.Logical(), r)
      ensures Core() && Since(g) && |data| == |d| + obj.fs.cSize && d <= data
    {
      hide Sectors, FatFs.Table, Bits, FatFs.Logical, Owned, Holding, FatFs.Valid, Used, Holds, SameData, OthersKept,
        Stays, FatFs.Shape, MetaStep, Core, LinksKept, CountOk, SameElsewhere;
      var fs := obj.fs;
      MetaFacts(fs, l, w, q);
      MetaKeepsOthers(fs, g, l, fs.Logical());
      FreshCluster(fs, g, u, ch, r);
      LinksStay(g, u, ch, t, fs.Table(), r);
      HoldsThroughMeta(fs, ch, u, l, w, d, Buffer(), fs.Logical(), fs.winSect);
      HoldsGrown(fs, ch, u, fs.Logical(), fs.winSect, d, Buffer(), r);
      CoreIs();
    }

    /** create_chain() for the file: afterwards it is as it was, or has a new cluster that is not yet part of it. */
    method Take(clst: nat, ghost i: nat, ghost g: Start) returns (r: nat)
      requires Core() && Since(g)
      requires if clst == 0 then obj.chain == [] else i < |obj.chain| && clst == obj.chain[i] && obj.Followable(i)
      modifies obj`stat, obj`nCont, obj`nFrag, obj`chain, obj.fs`lastClst, obj.fs`freeClst, obj.fs`fsiFlag
      modifies obj.fs`wFlag, obj.fs`winSect, obj.fs.win, obj.fs.disk`sec, obj.fs.disk`script
      ensures obj.fs.Valid() && OthersKept(obj.fs, g, obj.fs.Logical())
      ensures r == 0 || r == 1 || i + 1 < |old(obj.chain)| ==>
                r == INVALID || (Core() && Since(g) && obj.chain == old(obj.chain) && obj.Status() == old(obj.Status()))
      ensures r == 0 ==> NoRoom() && !(i + 1 < |old(obj.chain)|)
      ensures r == 1 ==> WasBroken(g)
      ensures SameData(obj.fs, old(obj.fs.Logical()), obj.fs.Logical())
      ensures i + 1 < |old(obj.chain)| ==> r == INVALID || (r == obj.chain[i + 1] && 2 <= r < obj.fs.nFatEnt)
      ensures r != 0 && r != 1 && r != INVALID && !(i + 1 < |old(obj.chain)|) ==>
                GrownFrom(old(obj.chain), old(Used(obj.fs)), old(obj.fs.Table()), old(obj.fs.Logical()),
                  old(obj.fs.winSect), old(Quiet()), r, g)
      ensures old(obj.fs.freeClst) == 0 ==>
                obj.fs.freeClst == 0 && r != 1 && (r != INVALID ==> obj.chain == old(obj.chain))
      ensures old(Quiet()) ==> r != INVALID && Quiet()
    {
      hide Sectors, FatFs.Table, Bits, FatFs.Logical, Owned, Holding, FatFs.Valid, Used, Holds, SameData, OthersKept,
        Stays, FfObj.Followable, FatFs.Shape, MetaStep, Core, AllUsed, ClusterData, Grown, CountOk, LinksKept,
        SameElsewhere, Mask, FatFs.InFat1, InBitmap, Distinct, Aside;
      CoreFacts();
      ghost var fs, l, w, q, u, n := obj.fs, obj.fs.Logical(), obj.fs.winSect, Quiet(), Used(obj.fs), |obj.chain|;
      ChainInTable(obj);
      r := CreateChain(obj, clst, i);
      MetaFacts(fs, l, w, q);
      MetaKeepsOthers(fs, g, l, fs.Logical());
      if r == 0 || r == 1 || (r != INVALID && i + 1 < n) {
        CoreAfter(l, w, q, u, g);
        SinceParts(g);
        if r == 1 {
          BrokenBefore(g, fs.Table());
        }
      }
    }

    /** Clusters behind the old ones make no difference. */
    lemma ClearStays(ch: seq<nat>, d: seq<Sector>, n: nat)
      requires 0 < obj.fs.cSize && Agrees(Sectors(obj.fs, ch), d, sect, buf[..], n)
      requires |d| == |Sectors(obj.fs, ch)| && n <= |d| * 512 && ch <= obj.chain && d <= data
      ensures ClearTo(n) && (obj.objSize == n ==> Clear())
    {
      hide Sectors, Agrees;
      SectorsOfPrefix(obj.fs, obj.chain, |ch|);
      assert obj.chain[..|ch|] == ch;
      AgreesGrown(Sectors(obj.fs, ch), d, sect, buf[..], n, Sectors(obj.fs, obj.chain), data);
    }

    /** The sectors that remain after a cut. */
    lemma ClearCut(ch: seq<nat>, d: seq<Sector>, n: nat)
      requires 0 < obj.fs.cSize && Agrees(Sectors(obj.fs, ch), d, sect, buf[..], n) && obj.objSize <= n
      requires obj.chain <= ch && data <= d
      ensures Clear()
    {
      hide Sectors;
      SectorsOfPrefix(obj.fs, ch, |obj.chain|);
      assert ch[..|obj.chain|] == obj.chain;
    }

    lemma BufferIs()
      ensures Buffer() == Cache(if dirty || tracked then sect else 0, dirty, buf[..])
    {
    }

    lemma ClearIs()
      requires 0 < obj.fs.cSize
      ensures Clear() <==> Agrees(Sectors(obj.fs, obj.chain), data, sect, buf[..], obj.objSize)
    {
    }

    /** Follow the chain from clst, its cluster number i, or stretch it; a first cluster (clst 0) becomes the
        start cluster. */
    method Stretch(clst: nat, ghost i: nat, ghost g: Start) returns (r: nat)
      requires Core() && Since(g)
      requires if clst == 0 then obj.chain == [] else i < |obj.chain| && clst == obj.chain[i] && obj.Followable(i)
      modifies this`data, obj`stat, obj`sClust, obj`nCont, obj`nFrag, obj`chain, obj.fs`lastClst, obj.fs`freeClst
      modifies obj.fs`fsiFlag
      modifies obj.fs`wFlag, obj.fs`winSect, obj.fs.win, obj.fs.disk`sec, obj.fs.disk`script
      ensures obj.fs.Valid() && OthersKept(obj.fs, g, obj.fs.Logical())
      ensures (r == 0 || i + 1 < |old(obj.chain)|) && r != INVALID ==>
                && Core() && Since(g)
                && obj.chain == old(obj.chain) && data == old(data) && obj.Status() == old(obj.Status())
      ensures r == 0 ==> NoRoom() && !(i + 1 < |old(obj.chain)|)
      ensures r == 1 ==> WasBroken(g)
      ensures SameData(obj.fs, old(obj.fs.Logical()), obj.fs.Logical())
      ensures i + 1 < |old(obj.chain)| ==> r == INVALID || r == obj.chain[i + 1]
      ensures r != 0 && r != 1 && r != INVALID ==> Core() && Since(g) && 2 <= r < obj.fs.nFatEnt
      ensures r != 0 && r != 1 && r != INVALID && !(i + 1 < |old(obj.chain)|) ==>
                obj.chain == old(obj.chain) + [r] && old(data) <= data && |data| == |old(data)| + obj.fs.cSize
      ensures old(obj.fs.freeClst) == 0 ==>
                obj.fs.freeClst == 0 && r != 1 && (r != INVALID ==> obj.chain == old(obj.chain))
      ensures r != INVALID && old(Own()) ==> Own()
      ensures r != INVALID && old(Clear()) ==> Clear()
      ensures old(Quiet()) ==> r != INVALID && Quiet()
    {
      hide *;
      OwnIs();
      QuietIs();
      CoreFacts();
      ClearIs();
      VolumeFacts(obj.fs);
      ghost var fs, l, w, q, u, ch, t := obj.fs, obj.fs.Logical(), obj.fs.winSect, Quiet(), Used(obj.fs), obj.chain,
        obj.fs.Table();
      r := Take(clst, i, g);
      if r == 0 || r == 1 || r == INVALID {
        return;
      }
      if clst == 0 {
        obj.sClust := r;
      }
      if !(i + 1 < |ch|) {
        GrownFacts(ch, u, t, l, w, q, r, g);
        ghost var d := data;
        data := d + ClusterData(fs, fs.Logical(), r);
        CoreGrown(ch, u, t, l, w, q, d, r, g);
        OwnGrows(ch, r);
        if old(Clear()) {
          ClearStays(ch, d, obj.objSize);
        }
        SinceFacts(g);
      }
    }

    /** Like Sized(p), but the last cluster may have just been added, for bytes from position p on. */
    ghost predicate Stretched(p: nat)
      requires 0 < obj.fs.cSize
      reads this`clust, this`data, obj`chain, obj`objSize, obj`stat, obj`nFrag
    {
      StretchedTo(p, |data|)
    }

    /** The same for a file with n sectors. */
    ghost predicate StretchedTo(p: nat, n: nat)
      requires 0 < obj.fs.cSize
      reads this`clust, obj`chain, obj`objSize, obj`stat, obj`nFrag
    {
      && p <= obj.objSize
      && (obj.fs.fsType.EXFAT? && obj.stat == 2 ==>
            || n * 512 < Larger(obj.objSize, 1) + obj.fs.cSize * 512
            || n * 512 <= p + obj.fs.cSize * 512)
      && (obj.fs.fsType.EXFAT? && obj.nFrag > 0 ==>
            p == obj.objSize && obj.chain != [] && clust == obj.chain[|obj.chain| - 1])
      && (!obj.fs.fsType.EXFAT? ==> obj.objSize <= 0xFFFF_FFFF)
    }

    lemma StretchedIs(p: nat)
      requires 0 < obj.fs.cSize
      ensures Stretched(p) == StretchedTo(p, |data|)
    {
    }

    /** If sector k is the first of a cluster behind the chain, the chain ends with the sector before it. */
    lemma NoMore(ch: seq<nat>, k: nat)
      requires 0 < obj.fs.cSize && Rem(k, obj.fs.cSize) == 0
      ensures k == 0 && ch == [] ==> |Sectors(obj.fs, ch)| == 0
      ensures k > 0 && Quot(k - 1, obj.fs.cSize) + 1 == |ch| ==> |Sectors(obj.fs, ch)| == k
    {
      hide Sectors, Quot, Rem, Prod;
      SectorAt(obj.fs, ch, 0);
      NoClusters(obj.fs.cSize);
      Divided(k, obj.fs.cSize);
      if k > 0 {
        StepBack(k, obj.fs.cSize);
      }
    }

    /** The new cluster of sector k, the first of its cluster, when writing; full: there is none. */
    method FollowWrite(ghost k: nat, ghost g: Start) returns (res: FResult, full: bool)
      requires Core() && Since(g) && Positioned(fptr) && Sized(fptr)
      requires fptr == k * 512 && Rem(k, obj.fs.cSize) == 0
      modifies this`clust, this`data
      modifies obj`stat, obj`sClust, obj`nCont, obj`nFrag, obj`chain, obj.fs`lastClst, obj.fs`freeClst, obj.fs`fsiFlag
      modifies obj.fs`wFlag, obj.fs`winSect, obj.fs.win, obj.fs.disk`sec, obj.fs.disk`script
      ensures obj.fs.Valid() && OthersKept(obj.fs, g, obj.fs.Logical())
      ensures res.OK? || res.DiskErr? || (res.IntErr? && WasBroken(g))
      ensures res.OK? ==> Core() && Since(g) && old(data) <= data
      ensures res.OK? ==> |data| == |old(data)| || |data| * 512 == fptr + obj.fs.cSize * 512
      ensures res.OK? && full ==>
                && data == old(data) && Positioned(fptr) && Sized(fptr)
                && NoRoom() && fptr == obj.objSize == |data| * 512
      ensures res.OK? && !full ==> At(k) && Stretched(fptr)
      ensures old(obj.fs.freeClst) == 0 ==>
                obj.fs.freeClst == 0 && !res.IntErr? && (res.OK? ==> obj.chain == old(obj.chain))
      ensures res.OK? && old(Own()) ==> Own()
      ensures res.OK? && old(Clear()) ==> Clear()
      ensures old(Quiet()) ==> !res.DiskErr? && Quiet()
    {
      hide Sectors, FatFs.Table, Bits, Used, FatFs.Logical, Owned, Holds, Holding, OthersKept, Stays, FatFs.Valid,
        Quot, Rem, FfObj.Followable, MetaStep, Core, AllUsed, WasBroken, FatFs.Shape, Distinct, FfObj.Linked,
        Agrees, Clear, Own, Since, Buffer, LinksKept, NoRoom, Mask, InTable, FfObj.Clen;
      CoreFacts();
      SinceFacts(g);
      ghost var fs, ch := obj.fs, obj.chain;
      SectorAt(fs, ch, k);
      NoMore(ch, k);
      Unique(0, 0, fs.cSize);
      ChainInTable(obj);
      EntriesFit(fs);
      res, full := OK, false;
      var clst;
      if fptr == 0 {
        clst := obj.sClust;
        if clst == 0 {
          clst := Stretch(0, 0, g);
        }
      } else {
        StepBack(k, fs.cSize);
        ghost var i := Quot(k - 1, fs.cSize);
        CanFollowLast(i);
        clst := Stretch(clust, i, g);
      }
      if clst == 0 {
        return OK, true;
      }
      if clst == 1 {
        return IntErr, false;
      }
      if clst == INVALID {
        return DiskErr, false;
      }
      clust := clst;
    }

    /** Before the end of the chain nothing waits to be written to the FAT. */
    lemma CanFollowLast(i: nat)
      requires Core() && Sized(fptr) && fptr > 0 && i < |obj.chain| && clust == obj.chain[i]
      ensures obj.Followable(i)
      ensures obj.fs.fsType.EXFAT? && obj.nFrag > 0 ==> i + 1 == |obj.chain|
    {
      hide Sectors, FatFs.Table, Bits, Used, FatFs.Logical, Owned, Holding, FatFs.Valid;
      CoreFacts();
      CanFollow(i);
    }

    /** The sector to write at the pointer, number k of the file; full: no cluster for it. */
    method LocateWrite(ghost k: nat, ghost g: Start) returns (res: FResult, full: bool, csect: nat, s: nat)
      requires Core() && Since(g) && Positioned(fptr) && Sized(fptr) && fptr == k * 512
      modifies this`clust, this`data, this`dirty, this`tracked
      modifies obj`stat, obj`sClust, obj`nCont, obj`nFrag, obj`chain, obj.fs`lastClst, obj.fs`freeClst, obj.fs`fsiFlag
      modifies obj.fs`wFlag, obj.fs`winSect, obj.fs.win, obj.fs.disk`sec, obj.fs.disk`script
      ensures obj.fs.Valid() && OthersKept(obj.fs, g, obj.fs.Logical())
      ensures res.OK? || res.DiskErr? || (res.IntErr? && WasBroken(g))
      ensures res.OK? ==> Core() && Since(g) && old(data) <= data && (dirty ==> old(dirty))
      ensures res.OK? ==> |data| == |old(data)| || |data| * 512 == fptr + obj.fs.cSize * 512
      ensures res.OK? && full ==>
                && data == old(data) && Positioned(fptr) && Sized(fptr)
                && NoRoom() && fptr == obj.objSize == |data| * 512
      ensures res.OK? && !full ==> At(k) && Stretched(fptr) && !dirty && csect == Rem(k, obj.fs.cSize)
      ensures res.OK? && !full ==> k < |data| && s == Sectors(obj.fs, obj.chain)[k]
      ensures old(obj.fs.freeClst) == 0 ==>
                obj.fs.freeClst == 0 && !res.IntErr? && (res.OK? ==> obj.chain == old(obj.chain))
      ensures res.OK? && old(Own()) ==> Own()
      ensures res.OK? && old(Clear()) ==> Clear()
      ensures old(tracked) ==> tracked
      ensures old(Quiet()) ==> !res.DiskErr? && Quiet()
    {
      hide *;
      CoreFacts();
      StepFacts();
      SinceFacts(g);
      res, full, s := OK, false, 0;
      csect := Rem(fptr / 512, obj.fs.cSize);
      if csect == 0 {
        res, full := FollowWrite(k, g);
        if !res.OK? || full {
          return;
        }
      } else {
        InCurrent(fptr);
      }
      res := Flush(g);
      if res.OK? {
        s := CurrentSector(csect, k);
      }
    }

    /** The buffer follows when its sector is among those just written. */
    method Refill(w: seq<byte>, s: nat, cc: nat)
      requires buf.Length == 512 && |w| == cc * 512 && !dirty && sect < INVALID && s + cc < INVALID
      modifies buf
      ensures buf[..] == if s <= sect < s + cc then Chunks(w, cc)[sect - s] else old(buf[..])
    {
      Within32(sect, s, cc);
      if Sub32(sect, s) < cc {
        MemCpy(buf, 0, w[Sub32(sect, s) * 512..][..512]);
        assert buf[..] == Chunks(w, cc)[sect - s];
      }
    }

    /** Write cc sectors of one cluster, from sector s, number k of the file, to the disk. */
    method StoreRow(w: seq<byte>, s: nat, cc: nat, ghost k: nat, ghost g: Start) returns (ok: bool)
      requires Core() && Since(g) && !dirty && |w| == cc * 512
      requires k < |data| && s == Sectors(obj.fs, obj.chain)[k] && 0 < cc && Rem(k, obj.fs.cSize) + cc <= obj.fs.cSize
      modifies obj.fs.disk`sec, obj.fs.disk`script
      ensures obj.fs.Valid() && OthersKept(obj.fs, g, obj.fs.Logical()) && Used(obj.fs) == old(Used(obj.fs))
      ensures ok ==> Since(g) && obj.Linked() && k + cc <= |data| && s + cc <= |old(obj.fs.Logical())|
                     && obj.fs.Logical() == Spliced(old(obj.fs.Logical()), s, Chunks(w, cc))
      ensures old(Quiet()) ==> ok && Quiet()
    {
      hide *;
      BufferIs();
      QuietIs();
      CoreFacts();
      LinkedIs();
      LinkedFacts(obj);
      SinceParts(g);
      ghost var fs, l, ch, u, t := obj.fs, obj.fs.Logical(), obj.chain, Used(obj.fs), obj.fs.Table();
      HoldDirect(fs, ch, u, l, fs.winSect, data, Buffer(), k, Chunks(w, cc));
      RowHome(fs, u, ch, k, cc);
      ok := WriteData(obj.fs, w, s, cc);
      SplicedKeepsOthers(fs, g, u, ch, l, fs.Logical(), s, cc);
      LinkedAgain(obj);
      SinceIs(u, t, fs.freeClst, g);
    }

    /** Write cc sectors of one cluster, from sector s, number k of the file, past the buffer. */
    method DirectWrite(w: seq<byte>, s: nat, cc: nat, ghost k: nat, ghost g: Start) returns (res: FResult)
      requires Core() && Since(g) && !dirty && |w| == cc * 512
      requires k < |data| && s == Sectors(obj.fs, obj.chain)[k] && 0 < cc && Rem(k, obj.fs.cSize) + cc <= obj.fs.cSize
      modifies this`data, this`tracked, buf, obj.fs.disk`sec, obj.fs.disk`script
      ensures obj.fs.Valid() && OthersKept(obj.fs, g, obj.fs.Logical())
      ensures res.OK? || res.DiskErr?
      ensures res.OK? ==> Core() && Since(g) && k + cc <= |data| && data == Spliced(old(data), k, Chunks(w, cc))
      ensures res.OK? && old(Clear()) && k * 512 <= obj.objSize ==> ClearTo(Larger(obj.objSize, (k + cc) * 512))
      ensures old(tracked) ==> tracked
      ensures old(Quiet()) ==> res.OK? && Quiet()
    {
      hide *;
      BufferIs();
      CoreFacts();
      ClearIs();
      SectorBounds(obj.fs);
      ghost var l, ca, u, d := obj.fs.Logical(), Buffer(), Used(obj.fs), data;
      var ok := StoreRow(w, s, cc, k, g);
      if !ok {
        return DiskErr;
      }
      Refill(w, s, cc);
      data := Spliced(data, k, Chunks(w, cc));
      tracked := tracked || s <= sect < s + cc;
      RefillHolds(l, u, d, ca, Chunks(w, cc), k, old(tracked));
      res := OK;
    }

    /** After sectors src were written from sector number k on, and the buffer refilled if it had one of them. */
    lemma RefillHolds(l: seq<Sector>, u: seq<bool>, d: seq<Sector>, ca: Cache, src: seq<Sector>, k: nat, was: bool)
      requires buf.Length == 512 && buf != obj.fs.win && sect < obj.fs.disk.size && obj.Linked() && obj.fs.Valid()
      requires Holding(obj.fs, obj.chain, u, l, obj.fs.winSect, d, ca) && Owned(obj.fs, u, obj.chain) && !dirty
      requires ca.sect == (if was then sect else 0) && !ca.dirty && u == Used(obj.fs)
      requires 0 < |src| && k < |d| && Rem(k, obj.fs.cSize) + |src| <= obj.fs.cSize && obj.objSize <= |d| * 512
      requires k < |Sectors(obj.fs, obj.chain)| && k + |src| <= |d|
      requires var s := Sectors(obj.fs, obj.chain)[k]; s + |src| <= |l| && obj.fs.Logical() == Spliced(l, s, src)
      requires data == Spliced(d, k, src)
      requires var s := Sectors(obj.fs, obj.chain)[k];
        && buf[..] == (if s <= sect < s + |src| then src[sect - s] else ca.buf)
        && tracked == (was || s <= sect < s + |src|)
      ensures Core() && 0 < obj.fs.cSize
      ensures Agrees(Sectors(obj.fs, obj.chain), d, sect, ca.buf, obj.objSize) && k * 512 <= obj.objSize ==>
                ClearTo(Larger(obj.objSize, (k + |src|) * 512))
    {
      hide Sectors, FatFs.Table, Bits, Used, FatFs.Logical, Owned, Holds, Holding, FatFs.Valid, Rem, FatFs.Shape,
        Distinct, Home, Agrees, Spliced;
      var fs, ch := obj.fs, obj.chain;
      var s := Sectors(fs, ch)[k];
      ObjectFacts(obj);
      HoldFacts(fs, ch, u, l, fs.winSect, d, ca);
      SectorsOfClusters(fs, ch, s);
      HoldData(fs, ch, u, l, fs.winSect, d, ca);
      HoldDirect(fs, ch, u, l, fs.winSect, d, ca, k, src);
      if s <= sect < s + |src| {
        var i := k + (sect - s);
        InRow(fs, ch, k, |src|);
        HoldFacts(fs, ch, u, fs.Logical(), fs.winSect, data, Refilled(ca, s, src));
        HoldLoad(fs, ch, u, fs.Logical(), fs.winSect, data, Refilled(ca, s, src), i);
        LinkedIs();
        CoreIs();
        TrackedIsClear(Larger(obj.objSize, (k + |src|) * 512));
      } else {
        LinkedIs();
        CoreIs();
        if Agrees(Sectors(fs, ch), d, sect, ca.buf, obj.objSize) && k * 512 <= obj.objSize {
          AgreesSpliced(fs, ch, d, sect, ca.buf, obj.objSize, k, src, Larger(obj.objSize, (k + |src|) * 512));
        }
      }
    }

    lemma HoldData(fs: FatFs, ch: seq<nat>, u: seq<bool>, l: seq<Sector>, w: nat, d: seq<Sector>, ca: Cache)
      requires Holding(fs, ch, u, l, w, d, ca)
      ensures 0 < fs.dataBase
    {
    }

    lemma LinkedIs()
      requires obj.Linked()
      ensures obj.sClust == (if obj.chain == [] then 0 else obj.chain[0])
      ensures obj.chain == [] ==> obj.Status().nFrag == 0 && obj.Status().stat != 3
      ensures obj.Describes(obj.Status(), obj.chain)
    {
      hide FfObj.Describes;
    }

    lemma RowHome(fs: FatFs, u: seq<bool>, ch: seq<nat>, k: nat, n: nat)
      requires fs.Shape() && |u| == fs.nFatEnt && Owned(fs, u, ch) && InTable(fs.nFatEnt, ch) && k < |Sectors(fs, ch)|
      requires 0 < n && Rem(k, fs.cSize) + n <= fs.cSize
      ensures var s := Sectors(fs, ch)[k]; forall i | s <= i < s + n :: Home(fs, i) && i in Sectors(fs, ch)
    {
      hide Sectors, Rem, Home, Owned;
      var s := Sectors(fs, ch)[k];
      InRow(fs, ch, k, n);
      forall i | s <= i < s + n
        ensures Home(fs, i) && i in Sectors(fs, ch)
      {
        assert Sectors(fs, ch)[k + (i - s)] == i;
        SectorInHome(fs, u, ch, i);
      }
    }

    /** Bring sector s, number k of the file, into the clean buffer, unless the file ends before it. */
    method Fill(s: nat, ghost k: nat, ghost g: Start) returns (res: FResult)
      requires Core() && Since(g) && !dirty && k < |data| && s == Sectors(obj.fs, obj.chain)[k] && fptr == k * 512
      modifies this`sect, buf, obj.fs.disk`script
      ensures obj.fs.Valid() && obj.fs.Logical() == old(obj.fs.Logical())
      ensures res.OK? || res.DiskErr?
      ensures res.OK? ==> sect == s && (fptr < obj.objSize && old(Clear()) ==> buf[..] == data[k])
      ensures res.OK? ==> sect < obj.fs.disk.size
      ensures old(Quiet()) ==> res.OK? && Quiet()
    {
      hide Sectors, FatFs.Table, Bits, Used, FatFs.Logical, Owned, Holds, Holding, FatFs.Valid, Home;
      CoreFacts();
      if sect == s && fptr < obj.objSize && Clear() {
        BufferShows(k);
      }
      HoldLoad(obj.fs, obj.chain, Used(obj.fs), obj.fs.Logical(), obj.fs.winSect, data, Buffer(), k);
      if sect != s && fptr < obj.objSize {
        var ok := ReadData(obj.fs, buf, 0, s, 1);
        if !ok {
          return DiskErr;
        }
        assert buf[..] == data[k];
      }
      sect := s;
      res := OK;
    }

    /** Whether the buffer may take w at the pointer: it shows sector k of the file, as far as the file
        reaches and w does not cover it. */
    ghost predicate Takes(k: nat, n: nat)
      requires buf.Length == 512 && k < |data|
      reads this`fptr, this`data, buf, obj`objSize
    {
      && fptr / 512 == k && fptr <= obj.objSize && fptr % 512 + n <= 512
      && forall j | 0 <= j < 512 && k * 512 + j < obj.objSize && !(fptr % 512 <= j < fptr % 512 + n) ::
           buf[j] == data[k][j]
    }

    /** Put the bytes w into the buffer at the pointer.  ca is what the buffer was before sector k came in. */
    method Put(w: seq<byte>, ghost k: nat, ghost ca: Cache)
      requires buf.Length == 512 && buf != obj.fs.win && obj.Linked() && obj.fs.Valid() && obj.fs.Shape()
      requires 0 < obj.fs.cSize && sect < obj.fs.disk.size
      requires Holding(obj.fs, obj.chain, Used(obj.fs), obj.fs.Logical(), obj.fs.winSect, data, ca)
      requires k < |data| == |Sectors(obj.fs, obj.chain)| && sect == Sectors(obj.fs, obj.chain)[k]
      requires (ca.dirty ==> ca.sect == sect) && obj.objSize <= |data| * 512
      requires fptr / 512 == k && fptr <= obj.objSize && fptr % 512 + |w| <= 512
      modifies this`data, this`dirty, buf
      ensures Core() && dirty && |data| == |old(data)| && fptr + |w| <= |data| * 512
      ensures old(Takes(k, |w|)) ==> Wrote(old(data), obj.objSize, fptr, w, data)
    {
      hide Sectors, FatFs.Table, Bits, Used, FatFs.Logical, Owned, Holds, Holding, FatFs.Valid, BytesOf, Overwrite;
      LinkedFacts(obj);
      MemCpy(buf, fptr % 512, w);
      if old(Takes(k, |w|)) {
        PutBytes(data, obj.objSize, k, fptr % 512, w, buf[..]);
      }
      HoldPut(obj.fs, obj.chain, Used(obj.fs), obj.fs.Logical(), obj.fs.winSect, data, ca, k, buf[..]);
      data := data[k := buf[..]];
      dirty := true;
    }

    /** Write what fits of the next btw bytes into the sector in the buffer. */
    method WritePart(src: seq<byte>, at: nat, btw: nat, ghost k: nat, ghost ca: Cache) returns (wcnt: nat)
      requires buf.Length == 512 && buf != obj.fs.win && obj.Linked() && obj.fs.Valid() && obj.fs.Shape()
      requires 0 < obj.fs.cSize && sect < obj.fs.disk.size
      requires Holding(obj.fs, obj.chain, Used(obj.fs), obj.fs.Logical(), obj.fs.winSect, data, ca)
      requires k < |data| == |Sectors(obj.fs, obj.chain)| && sect == Sectors(obj.fs, obj.chain)[k] && At(k)
      requires (ca.dirty ==> ca.sect == sect) && obj.objSize <= |data| * 512 && 0 < btw && at + btw <= |src|
      requires fptr / 512 == k && fptr <= obj.objSize
      modifies this`data, this`dirty, buf
      ensures Core() && dirty && |data| == |old(data)| && 0 < wcnt <= btw && Positioned(fptr + wcnt)
      ensures fptr + wcnt <= |data| * 512
      ensures old(fptr % 512 != 0 || fptr < obj.objSize ==> buf[..] == data[k]) ==>
                Wrote(old(data), obj.objSize, fptr, src[at..at + wcnt], data)
      ensures Stretched(fptr) == old(Stretched(fptr))
    {
      hide Sectors, FatFs.Table, Bits, Used, FatFs.Logical, Owned, Holds, Holding, FatFs.Valid, Rem, Quot, Prod,
        FfObj.Linked, FatFs.Shape, Core, At, Positioned, BytesOf, Overwrite, Larger;
      wcnt := 512 - fptr % 512;
      if wcnt > btw {
        wcnt := btw;
      }
      Put(src[at..at + wcnt], k, ca);
      Advanced(fptr, wcnt, 0);
    }

    /** Write the whole sectors among the next cc that lie in the current cluster. */
    method WriteWhole(src: seq<byte>, at: nat, count: nat, csect: nat, s: nat, ghost k: nat, ghost g: Start)
      returns (res: FResult, wcnt: nat)
      requires Core() && Since(g) && !dirty && 0 < count && at + count * 512 <= |src| && fptr == k * 512 <= obj.objSize
      requires At(k) && csect == Rem(k, obj.fs.cSize) && k < |data| && s == Sectors(obj.fs, obj.chain)[k]
      modifies this`data, this`tracked, buf, obj.fs.disk`sec, obj.fs.disk`script
      ensures obj.fs.Valid() && OthersKept(obj.fs, g, obj.fs.Logical())
      ensures res.OK? || res.DiskErr?
      ensures res.OK? ==>
                Core() && Since(g) && 0 < wcnt <= count * 512 && |data| == |old(data)| && Positioned(fptr + wcnt)
      ensures res.OK? ==> Wrote(old(data), obj.objSize, fptr, src[at..at + wcnt], data)
      ensures res.OK? && old(Clear()) ==> ClearTo(Larger(obj.objSize, fptr + wcnt))
      ensures old(tracked) ==> tracked
      ensures res.OK? ==> Stretched(fptr) == old(Stretched(fptr))
      ensures old(Quiet()) ==> res.OK? && Quiet()
    {
      hide *;
      CoreFacts();
      SinceFacts(g);
      ghost var e, n := data, obj.objSize;
      wcnt := 0;
      var cc := count;
      if csect + cc > obj.fs.cSize {
        cc := obj.fs.cSize - csect;
      }
      var w := src[at..at + cc * 512];
      StretchedIs(fptr);
      res := DirectWrite(w, s, cc, k, g);
      if res.OK? {
        DirectWrote(e, n, k, w, cc);
        StretchedIs(fptr);
        wcnt := 512 * cc;
        assert w == src[at..at + wcnt];
        Advanced(fptr, wcnt, cc);
      }
    }

    /** Write some of the next btw bytes at the start of sector k, which is s: whole sectors past the buffer, or
        part of one into it. */
    method WriteHere(src: seq<byte>, at: nat, btw: nat, csect: nat, s: nat, ghost k: nat, ghost g: Start)
      returns (res: FResult, wcnt: nat)
      requires Core() && Since(g) && !dirty && 0 < btw && at + btw <= |src| && fptr == k * 512 <= obj.objSize
      requires At(k) && csect == Rem(k, obj.fs.cSize) && k < |data| && s == Sectors(obj.fs, obj.chain)[k]
      modifies this`data, this`dirty, this`tracked, this`sect, buf, obj.fs.disk`sec, obj.fs.disk`script
      ensures obj.fs.Valid() && OthersKept(obj.fs, g, obj.fs.Logical())
      ensures res.OK? || res.DiskErr?
      ensures res.OK? ==> Core() && Since(g) && 0 < wcnt <= btw && |data| == |old(data)| && Positioned(fptr + wcnt)
      ensures res.OK? ==> fptr + wcnt <= |data| * 512
      ensures res.OK? && old(Clear()) ==> Wrote(old(data), obj.objSize, fptr, src[at..at + wcnt], data)
      ensures res.OK? && old(Clear()) ==> ClearTo(Larger(obj.objSize, fptr + wcnt))
      ensures old(tracked) ==> tracked
      ensures res.OK? ==> Stretched(fptr) == old(Stretched(fptr))
      ensures res.OK? && old(Own()) ==> Own()
      ensures old(Quiet()) ==> res.OK? && Quiet()
    {
      hide Sectors, FatFs.Table, Bits, Used, FatFs.Logical, Owned, Holds, Holding, FatFs.Valid, Rem, Quot, Prod,
        OthersKept, Stays, FfObj.Linked, FatFs.Shape, InTable, Distinct, Core, At, Positioned, BytesOf, Overwrite,
        Larger, Since, Stretched;
      CoreFacts();
      SinceFacts(g);
      var cc := btw / 512;
      if cc > 0 {
        res, wcnt := WriteWhole(src, at, cc, csect, s, k, g);
        return;
      }
      ghost var ca := Buffer();
      res := Fill(s, k, g);
      if res.OK? {
        wcnt := WritePart(src, at, btw, k, ca);
        TrackedIsClear(Larger(obj.objSize, fptr + wcnt));
        SinceFacts(g);
      } else {
        wcnt := 0;
      }
    }

    lemma ContentIs()
      requires Core()
      ensures Content() == BytesOf(data, obj.objSize)
    {
      hide Core;
    }

    lemma StretchedFacts(p: nat)
      requires 0 < obj.fs.cSize && Stretched(p)
      ensures p <= obj.objSize
    {
    }

    lemma StepFacts()
      requires 0 < obj.fs.cSize && Core() && Sized(fptr)
      ensures fptr <= obj.objSize && Stretched(fptr) && Content() == BytesOf(data, obj.objSize)
      ensures Buffer().dirty == dirty && (dirty ==> Buffer().sect == sect)
    {
      hide Core;
    }

    /** One turn of the loop of f_write() at the start of sector k. */
    method WriteBorder(src: seq<byte>, at: nat, btw: nat, ghost k: nat, ghost g: Start)
      returns (res: FResult, wcnt: nat)
      requires fptr == k * 512
      requires Core() && Since(g) && Positioned(fptr) && Sized(fptr) && 0 < btw && at + btw <= |src|
      modifies this`clust, this`data, this`dirty, this`tracked, this`sect, buf
      modifies obj`stat, obj`sClust, obj`nCont, obj`nFrag, obj`chain, obj.fs`lastClst, obj.fs`freeClst, obj.fs`fsiFlag
      modifies obj.fs`wFlag, obj.fs`winSect, obj.fs.win, obj.fs.disk`sec, obj.fs.disk`script
      ensures obj.fs.Valid() && OthersKept(obj.fs, g, obj.fs.Logical())
      ensures res.OK? || res.DiskErr? || (res.IntErr? && WasBroken(g))
      ensures res.OK? ==> Core() && Since(g) && wcnt <= btw
      ensures res.OK? ==> |data| == |old(data)| || |data| * 512 < fptr + wcnt + obj.fs.cSize * 512
      ensures res.OK? && wcnt == 0 ==> data == old(data) && Positioned(fptr) && Sized(fptr) && (dirty ==> old(dirty))
      ensures res.OK? && wcnt == 0 ==> NoRoom() && fptr == obj.objSize == |data| * 512
      ensures res.OK? && wcnt > 0 ==> Positioned(fptr + wcnt) && Stretched(fptr)
      ensures res.OK? ==> fptr + wcnt <= |data| * 512
      ensures res.OK? && wcnt > 0 && old(Clear()) ==> Wrote(old(data), obj.objSize, fptr, src[at..at + wcnt], data)
      ensures res.OK? && old(Clear()) ==> if wcnt > 0 then ClearTo(Larger(obj.objSize, fptr + wcnt)) else Clear()
      ensures old(tracked) ==> tracked
      ensures old(obj.fs.freeClst) == 0 ==>
                obj.fs.freeClst == 0 && !res.IntErr? && (res.OK? ==> obj.chain == old(obj.chain))
      ensures res.OK? && old(Own()) ==> Own()
      ensures old(Quiet()) ==> !res.DiskErr? && Quiet()
    {
      hide *;
      CoreFacts();
      StepFacts();
      wcnt := 0;
      ghost var n, d := obj.objSize, data;
      var full, csect, s;
      res, full, csect, s := LocateWrite(k, g);
      if res.OK? && !full {
        CoreFacts();
        StretchedFacts(fptr);
        ghost var d' := data;
        res, wcnt := WriteHere(src, at, btw, csect, s, k, g);
        if res.OK? && old(Clear()) {
          WrotePrefix(d, d', n, fptr, src[at..at + wcnt], data);
        }
      }
    }

    /** One turn of the loop of f_write(): wcnt of the btw bytes that remain, src[at..], are written; 0 when
        there is no cluster for them. */
    method WriteStep(src: seq<byte>, at: nat, btw: nat, ghost g: Start) returns (res: FResult, wcnt: nat)
      requires Core() && Since(g) && Positioned(fptr) && Sized(fptr) && 0 < btw && at + btw <= |src|
      modifies this`clust, this`data, this`dirty, this`tracked, this`sect, buf
      modifies obj`stat, obj`sClust, obj`nCont, obj`nFrag, obj`chain, obj.fs`lastClst, obj.fs`freeClst, obj.fs`fsiFlag
      modifies obj.fs`wFlag, obj.fs`winSect, obj.fs.win, obj.fs.disk`sec, obj.fs.disk`script
      ensures obj.fs.Valid() && OthersKept(obj.fs, g, obj.fs.Logical())
      ensures res.OK? || res.DiskErr? || (res.IntErr? && WasBroken(g))
      ensures res.OK? ==> Core() && Since(g) && wcnt <= btw
      ensures res.OK? ==> |data| == |old(data)| || |data| * 512 < fptr + wcnt + obj.fs.cSize * 512
      ensures res.OK? && wcnt == 0 ==> data == old(data) && Positioned(fptr) && Sized(fptr) && (dirty ==> old(dirty))
      ensures res.OK? && wcnt == 0 ==> NoRoom() && fptr == obj.objSize == |data| * 512
      ensures res.OK? && wcnt > 0 ==> Positioned(fptr + wcnt) && Stretched(fptr)
      ensures res.OK? ==> fptr + wcnt <= |data| * 512
      ensures res.OK? && wcnt > 0 && old(Clear()) ==> Wrote(old(data), obj.objSize, fptr, src[at..at + wcnt], data)
      ensures res.OK? && old(Clear()) ==> if wcnt > 0 then ClearTo(Larger(obj.objSize, fptr + wcnt)) else Clear()
      ensures old(tracked) ==> tracked
      ensures old(obj.fs.freeClst) == 0 ==>
                obj.fs.freeClst == 0 && !res.IntErr? && (res.OK? ==> obj.chain == old(obj.chain))
      ensures res.OK? && old(Own()) ==> Own()
      ensures old(Quiet()) ==> !res.DiskErr? && Quiet()
    {
      hide *;
      CoreFacts();
      StepFacts();
      ghost var k := fptr / 512;
      if fptr % 512 == 0 {
        res, wcnt := WriteBorder(src, at, btw, k, g);
      } else {
        InCurrent(fptr);
        if Clear() {
          BufferShows(k);
        }
        res := OK;
        wcnt := WritePart(src, at, btw, k, Buffer());
        TrackedIsClear(Larger(obj.objSize, fptr + wcnt));
        SinceFacts(g);
      }
    }

    /** How many of n bytes a file with the pointer at p may take: a FAT volume has no file of 4 GiB. */
    ghost function Acceptable(n: nat, p: nat): nat {
      if obj.fs.fsType.EXFAT? || p > 0xFFFF_FFFF then n else Smaller(n, 0xFFFF_FFFF - p)
    }

    /** The n bytes just written move the pointer and perhaps the end of the file. */
    method Advance(n: nat)
      requires Core() && Stretched(fptr) && 0 < n && fptr + n <= |data| * 512
      requires !obj.fs.fsType.EXFAT? ==> fptr + n <= 0xFFFF_FFFF
      modifies this`fptr, obj`objSize
      ensures fptr == old(fptr) + n && obj.objSize == Larger(old(obj.objSize), fptr)
      ensures Core() && Sized(fptr) && (old(ClearTo(Larger(obj.objSize, fptr + n))) ==> Clear())
    {
      hide Sectors, FatFs.Table, Bits, Used, FatFs.Logical, Owned, Holds, Holding, FatFs.Valid;
      fptr := fptr + n;
      obj.objSize := if fptr > obj.objSize then fptr else obj.objSize;
    }

    /** WriteStep, and the pointer behind what was written. */
    method WriteTurn(src: seq<byte>, at: nat, btw: nat, ghost g: Start) returns (res: FResult, wcnt: nat)
      requires Core() && Since(g) && Positioned(fptr) && Sized(fptr) && 0 < btw && at + btw <= |src|
      requires !obj.fs.fsType.EXFAT? ==> fptr + btw <= 0xFFFF_FFFF
      modifies this`fptr, this`clust, this`data, this`dirty, this`tracked, this`sect, buf, obj`objSize
      modifies obj`stat, obj`sClust, obj`nCont, obj`nFrag, obj`chain, obj.fs`lastClst, obj.fs`freeClst, obj.fs`fsiFlag
      modifies obj.fs`wFlag, obj.fs`winSect, obj.fs.win, obj.fs.disk`sec, obj.fs.disk`script
      ensures obj.fs.Valid() && OthersKept(obj.fs, g, obj.fs.Logical())
      ensures res.OK? || res.DiskErr? || (res.IntErr? && WasBroken(g))
      ensures res.OK? ==> Core() && Since(g) && Positioned(fptr) && Sized(fptr)
      ensures res.OK? ==> |data| == |old(data)| || |data| * 512 < fptr + obj.fs.cSize * 512
      ensures res.OK? ==> wcnt <= btw && fptr == old(fptr) + wcnt
      ensures res.OK? && wcnt == 0 ==> Content() == old(Content()) && NoRoom() && fptr == obj.objSize == |data| * 512
      ensures res.OK? ==> |Content()| == Larger(|old(Content())|, fptr)
      ensures res.OK? && wcnt > 0 && old(Clear()) ==>
                Content() == Overwrite(old(Content()), old(fptr), src[at..at + wcnt])
      ensures old(obj.fs.freeClst) == 0 ==>
                obj.fs.freeClst == 0 && !res.IntErr? && (res.OK? ==> obj.chain == old(obj.chain))
      ensures res.OK? && old(Own()) ==> Own()
      ensures res.OK? && old(Clear()) ==> Clear()
      ensures old(tracked) ==> tracked
      ensures old(Quiet()) ==> !res.DiskErr? && Quiet()
    {
      hide *;
      CoreFacts();
      StepFacts();
      ghost var d, n := data, obj.objSize;
      res, wcnt := WriteStep(src, at, btw, g);
      if res.OK? {
        if wcnt > 0 {
          if old(Clear()) {
            WroteFacts(d, n, fptr, src[at..at + wcnt], data);
          }
          Advance(wcnt);
        } else {
          LargerBounds(n, fptr);
          LargerAgain(n, n, fptr);
        }
        SizedFacts(fptr);
        ContentIs();
      }
    }

    /** The loop of f_write(): write n bytes at the pointer, or as many as there is room for. */
    method WriteLoop(src: seq<byte>, n: nat, ghost g: Start) returns (res: FResult, bw: nat)
      requires Core() && Since(g) && Positioned(fptr) && Sized(fptr) && n <= |src|
      requires !obj.fs.fsType.EXFAT? ==> fptr + n <= 0xFFFF_FFFF
      modifies this`fptr, this`clust, this`data, this`dirty, this`tracked, this`sect, buf, obj`objSize
      modifies obj`stat, obj`sClust, obj`nCont, obj`nFrag, obj`chain, obj.fs`lastClst, obj.fs`freeClst, obj.fs`fsiFlag
      modifies obj.fs`wFlag, obj.fs`winSect, obj.fs.win, obj.fs.disk`sec, obj.fs.disk`script
      ensures obj.fs.Valid() && OthersKept(obj.fs, g, obj.fs.Logical())
      ensures res.OK? || res.DiskErr? || (res.IntErr? && WasBroken(g))
      ensures bw <= n
      ensures res.OK? ==> Core() && Since(g) && Positioned(fptr) && Sized(fptr) && fptr == old(fptr) + bw
      ensures res.OK? ==> |data| == |old(data)| || |data| * 512 < fptr + obj.fs.cSize * 512
      ensures res.OK? ==> |Content()| == Larger(|old(Content())|, fptr)
      ensures res.OK? && old(Clear()) ==> Content() == Overwrite(old(Content()), old(fptr), src[..bw])
      ensures res.OK? && bw < n ==> NoRoom() && fptr == obj.objSize == |data| * 512
      ensures old(obj.fs.freeClst) == 0 ==>
                obj.fs.freeClst == 0 && !res.IntErr? && (res.OK? ==> obj.chain == old(obj.chain))
      ensures res.OK? && old(Own()) ==> Own()
      ensures res.OK? && old(Clear()) ==> Clear()
      ensures old(tracked) ==> tracked
      ensures old(Quiet()) ==> !res.DiskErr? && Quiet()
    {
      hide *;
      res, bw := OK, 0;
      CoreFacts();
      SizedFacts(fptr);
      SinceFacts(g);
      ghost var c := Content();
      OverwriteNothing(c, fptr);
      LargerBounds(|c|, fptr);
      LargerAgain(|c|, |c|, fptr);
      assert src[..0] == [];
      while bw < n
        invariant old(Own()) ==> Own()
        invariant res.OK? && obj.fs.Valid() && OthersKept(obj.fs, g, obj.fs.Logical())
        invariant Core() && Since(g) && Positioned(fptr) && Sized(fptr)
        invariant bw <= n && fptr == old(fptr) + bw
        invariant |data| == |old(data)| || |data| * 512 < fptr + obj.fs.cSize * 512
        invariant (old(tracked) ==> tracked) && (old(Clear()) ==> Clear()) && |Content()| == Larger(|c|, fptr)
        invariant old(Clear()) ==> Content() == Overwrite(c, old(fptr), src[..bw])
        invariant old(Quiet()) ==> Quiet()
        invariant old(obj.fs.freeClst) == 0 ==> obj.fs.freeClst == 0 && obj.chain == old(obj.chain)
      {
        LargerBounds(|c|, fptr);
        ghost var e := |Content()|;
        var wcnt;
        res, wcnt := WriteTurn(src, bw, n - bw, g);
        if res.OK? {
          LargerMoves(|c|, e, fptr - wcnt, fptr);
        }
        if !res.OK? || wcnt == 0 {
          return;
        }
        if old(Clear()) {
          OverwriteMore(c, old(fptr), src, bw, wcnt);
        }
        bw := bw + wcnt;
      }
    }

    /** f_write(): write up to btw bytes at the pointer; bw of them were written. */
    method Write(buff: seq<byte>, btw: nat) returns (res: FResult, bw: nat)
      requires err.OK? ==> Usable()
      requires btw <= |buff| && btw < 0x1_0000_0000
      modifies this`err, this`fptr, this`clust, this`data, this`dirty, this`tracked, this`sect, this`modified, buf
      modifies obj`stat, obj`sClust, obj`nCont, obj`nFrag, obj`chain, obj`objSize, obj.fs`lastClst, obj.fs`freeClst
      modifies obj.fs`fsiFlag
      modifies obj.fs`wFlag, obj.fs`winSect, obj.fs.win, obj.fs.disk`sec, obj.fs.disk`script
      ensures res == if !old(err).OK? then old(err) else if !forWriting then Denied else err
      ensures err == old(err) || err.DiskErr? || (err.IntErr? && old(err.OK? && BadEntry()))
      ensures err.OK? ==> Usable() && Since(old(Now()))
      ensures bw <= btw && (res.OK? || old(modified) ==> modified)
      ensures res.OK? ==> fptr == old(fptr) + bw && |Content()| == Larger(|old(Content())|, fptr)
      ensures err.OK? && old(err).OK? ==> |data| == |old(data)| || |data| * 512 < fptr + obj.fs.cSize * 512
      ensures res.OK? && old(Clear()) ==> Content() == Overwrite(old(Content()), old(fptr), buff[..bw])
      ensures res.OK? ==> bw <= Acceptable(btw, old(fptr))
      ensures res.OK? && bw < Acceptable(btw, old(fptr)) ==> NoRoom() && fptr == |Content()| == |data| * 512
      ensures old(err).OK? && !forWriting ==> err.OK? && bw == 0 && fptr == old(fptr) && Content() == old(Content())
      ensures old(err).OK? ==> obj.fs.Valid() && OthersKept(obj.fs, old(Now()), obj.fs.Logical())
      ensures old(err).OK? && old(obj.fs.freeClst) == 0 ==>
                obj.fs.freeClst == 0 && !res.IntErr? && (res.OK? ==> obj.chain == old(obj.chain))
      ensures err.OK? && old(Own()) ==> Own()
      ensures (old(tracked) ==> tracked) && (old(err).OK? && err.OK? && old(Clear()) ==> Clear())
      ensures old(Quiet()) ==> Quiet() && (old(err).OK? ==> !err.DiskErr?)
    {
      hide Sectors, FatFs.Table, Bits, Used, FatFs.Logical, Owned, Holds, Holding, FatFs.Valid, Rem, Quot, Prod,
        OthersKept, Stays, FfObj.Linked, FatFs.Shape, InTable, Distinct, Core, At, Positioned, WasBroken, AllUsed,
        BytesOf, Overwrite, Since, NoRoom, Sized, Content;
      bw := 0;
      res := err;
      if !res.OK? {
        return;
      }
      CoreFacts();
      SizedFacts(fptr);
      ghost var g, c := Now(), Content();
      NowSince();
      BadIs();
      SinceFacts(g);
      if !forWriting {
        return Denied, 0;
      }
      var left := btw;
      if !obj.fs.fsType.EXFAT? && (fptr + btw) % 0x1_0000_0000 < fptr % 0x1_0000_0000 {
        left := 0xFFFF_FFFF - fptr;
      }
      ghost var n := left;
      assert n == Acceptable(btw, fptr);
      res, bw := WriteLoop(buff, left, g);
      if res.OK? {
        modified := true;
      } else {
        err := res;
      }
    }

    // -------------------------------------------------------------- f_lseek()

    /** Write the links of the last fragment; what the file holds does not change, even if this fails. */
    method Settle(ghost g: Start) returns (res: FResult)
      requires Core() && Since(g) && Sized(fptr) && obj.fs.fsType.EXFAT?
      modifies obj`nFrag, obj.fs`wFlag, obj.fs`winSect, obj.fs.win, obj.fs.disk`sec, obj.fs.disk`script
      ensures obj.fs.Valid() && Core() && Since(g) && Sized(fptr)
      ensures res.OK? || res.DiskErr?
      ensures res.OK? ==> obj.nFrag == 0
      ensures old(Quiet()) ==> res.OK? && Quiet()
    {
      hide Sectors, FatFs.Table, Bits, FatFs.Logical, Owned, Holding, FatFs.Valid, Used, Holds, SameData, OthersKept,
        Stays, FatFs.Shape, MetaStep, Core, FillLast;
      CoreFacts();
      ghost var fs, l, w, q, u := obj.fs, obj.fs.Logical(), obj.fs.winSect, Quiet(), Used(obj.fs);
      ghost var t, a := fs.Table(), obj.Status();
      LastBelow(obj);
      UsedByBits(fs, l);
      res := FillLastFrag(obj, clust, 0xFFFF_FFFF);
      FillsElsewhere(obj.chain, t, a, fs.Table());
      LinksStay(g, u, obj.chain, t, fs.Table(), 0);
      FatFacts(fs, l, w, q);
      FatOnly(fs, l, w, q);
      SameBits(fs, l, fs.Logical());
      UsedByBits(fs, l);
      CoreAfter(l, w, q, u, g);
    }

    /** While seeking: the pointer is at the start of cluster number i, which may just have been added. */
    ghost predicate Seeking(i: nat)
      requires 0 < obj.fs.cSize
      reads this`fptr, this`clust, this`data, obj`chain, obj`objSize, obj`stat, obj`nFrag
    {
      && i < |obj.chain| && clust == obj.chain[i] && fptr == 512 * Prod(i, obj.fs.cSize)
      && (obj.fs.fsType.EXFAT? && obj.stat == 2 ==>
            || |data| * 512 < Larger(obj.objSize, 1) + obj.fs.cSize * 512
            || obj.objSize <= fptr == |data| * 512 - obj.fs.cSize * 512)
      && (obj.fs.fsType.EXFAT? && obj.nFrag > 0 ==> i + 1 == |obj.chain| && obj.objSize <= fptr)
      && (!obj.fs.fsType.EXFAT? ==> obj.objSize <= 0xFFFF_FFFF)
    }

    /** The first cluster of an empty file. */
    method SeekFirst(ghost g: Start) returns (res: FResult, clst: nat)
      requires Core() && Since(g) && Sized(0) && fptr == 0 && (obj.fs.fsType.EXFAT? ==> obj.nFrag == 0)
      modifies this`clust, this`data
      modifies obj`stat, obj`sClust, obj`nCont, obj`nFrag, obj`chain, obj.fs`lastClst, obj.fs`freeClst, obj.fs`fsiFlag
      modifies obj.fs`wFlag, obj.fs`winSect, obj.fs.win, obj.fs.disk`sec, obj.fs.disk`script
      ensures obj.fs.Valid() && OthersKept(obj.fs, g, obj.fs.Logical())
      ensures res.OK? || res.DiskErr? || (res.IntErr? && WasBroken(g))
      ensures res.OK? ==> Core() && Since(g) && old(data) <= data && clust == clst
      ensures res.OK? ==> |data| == |old(data)| || |data| * 512 <= fptr + obj.fs.cSize * 512
      ensures res.OK? && clst == 0 ==> old(obj.chain) == [] && data == old(data) == [] && NoRoom() && Sized(0)
      ensures res.OK? && clst != 0 ==> Seeking(0)
      ensures old(obj.chain) != [] ==> obj.nFrag == old(obj.nFrag) && clst != 0
      ensures res.OK? && old(Own()) ==> Own()
      ensures SameData(obj.fs, old(obj.fs.Logical()), obj.fs.Logical())
      ensures res.OK? ==> old(obj.chain) <= obj.chain
      ensures old(Quiet()) ==> !res.DiskErr? && Quiet()
    {
      hide Sectors, FatFs.Table, Bits, Used, FatFs.Logical, Owned, Holds, Holding, OthersKept, Stays, FatFs.Valid,
        Quot, Rem, FfObj.Followable, MetaStep, Core, AllUsed, WasBroken, FatFs.Shape, Distinct, FfObj.Linked;
      CoreFacts();
      SameDataSelf(obj.fs, obj.fs.Logical());
      ChainInTable(obj);
      EntriesFit(obj.fs);
      SectorAt(obj.fs, obj.chain, 0);
      res, clst := OK, obj.sClust;
      if clst == 0 {
        clst := Stretch(0, 0, g);
        if clst == 1 {
          return IntErr, clst;
        }
        if clst == INVALID {
          return DiskErr, clst;
        }
      }
      clust := clst;
    }

    /** The file is made to reach to the end of cluster number i, and the chain beyond. */
    method SeekOver(ghost i: nat, ghost g: Start) returns (clst: nat)
      requires Core() && Since(g) && i < |obj.chain| && clust == obj.chain[i] && 0 < fptr
      requires fptr == 512 * Prod(i + 1, obj.fs.cSize) <= |data| * 512
      requires i + 1 == |obj.chain| <==> fptr == |data| * 512
      requires obj.fs.fsType.EXFAT? && obj.stat == 2 ==>
                 || |data| * 512 < Larger(obj.objSize, 1) + obj.fs.cSize * 512
                 || obj.objSize < fptr == |data| * 512
      requires obj.fs.fsType.EXFAT? && obj.nFrag > 0 ==> i + 1 == |obj.chain| && obj.objSize < fptr
      modifies this`data, this`modified
      modifies obj`objSize, obj`stat, obj`sClust, obj`nCont, obj`nFrag, obj`chain
      modifies obj.fs`lastClst, obj.fs`freeClst, obj.fs`fsiFlag
      modifies obj.fs`wFlag, obj.fs`winSect, obj.fs.win, obj.fs.disk`sec, obj.fs.disk`script
      ensures obj.objSize == Larger(old(obj.objSize), fptr) && (modified <==> old(modified) || fptr > old(obj.objSize))
      ensures obj.fs.Valid() && OthersKept(obj.fs, g, obj.fs.Logical()) && (clst == 1 ==> WasBroken(g))
      ensures clst != 1 && clst != INVALID ==> Core() && Since(g) && old(data) <= data
      ensures clst == 0 ==> NoRoom() && i + 1 == |obj.chain| && obj.chain == old(obj.chain) && data == old(data)
      ensures clst != 0 && clst != 1 && clst != INVALID ==>
                && i + 1 < |obj.chain| && clst == obj.chain[i + 1] && old(obj.chain) <= obj.chain
                && clst < obj.fs.nFatEnt
      ensures clst != 0 && clst != 1 && clst != INVALID ==>
                || (i + 1 < |old(obj.chain)| && data == old(data) && obj.Status() == old(obj.Status()))
                || (i + 1 == |old(obj.chain)| && |data| * 512 == fptr + obj.fs.cSize * 512 && i + 2 == |obj.chain|)
      ensures clst != INVALID && old(Own()) ==> Own()
      ensures SameData(obj.fs, old(obj.fs.Logical()), obj.fs.Logical())
      ensures old(Quiet()) ==> clst != INVALID && Quiet()
    {
      hide *;
      CoreFacts();
      VolumeFacts(obj.fs);
      ChainInTable(obj);
      LargerBounds(obj.objSize, 1);
      LargerBounds(obj.objSize, fptr);
      Extend();
      LargerBounds(obj.objSize, 1);
      CanFollow(i);
      clst := Stretch(clust, i, g);
    }

    /** One turn of the loop of f_lseek(): on to the next cluster, number i + 1; when writing, the chain is
        stretched if it has to be.  clst: 0 if it cannot be. */
    method SeekStep(ghost i: nat, ghost g: Start) returns (res: FResult, clst: nat)
      requires Core() && Since(g) && Seeking(i) && (obj.fs.fsType.EXFAT? || fptr + obj.fs.cSize * 512 <= 0xFFFF_FFFF)
      requires !forWriting ==> fptr + obj.fs.cSize * 512 < obj.objSize && (obj.fs.fsType.EXFAT? ==> obj.nFrag == 0)
      modifies this`fptr, this`clust, this`data, this`modified
      modifies obj`objSize, obj`stat, obj`sClust, obj`nCont, obj`nFrag, obj`chain
      modifies obj.fs`lastClst, obj.fs`freeClst, obj.fs`fsiFlag
      modifies obj.fs`wFlag, obj.fs`winSect, obj.fs.win, obj.fs.disk`sec, obj.fs.disk`script
      ensures fptr == old(fptr) + obj.fs.cSize * 512
      ensures obj.fs.Valid() && OthersKept(obj.fs, g, obj.fs.Logical())
      ensures res.OK? || res.DiskErr? || (res.IntErr? && WasBroken(g))
      ensures res.OK? ==> Core() && Since(g) && old(data) <= data && old(obj.objSize) <= obj.objSize
      ensures res.OK? ==> |data| == |old(data)| || |data| * 512 <= fptr + obj.fs.cSize * 512
      ensures res.OK? ==> obj.objSize <= Larger(old(obj.objSize), fptr) && (old(modified) ==> modified)
      ensures res.OK? && obj.objSize > old(obj.objSize) ==> modified
      ensures res.OK? && clst == 0 ==>
                && forWriting && NoRoom() && obj.objSize == fptr == |data| * 512
                && At((fptr - 1) / 512) && Sized(fptr)
      ensures res.OK? && clst != 0 ==> Seeking(i + 1) && clst == clust && (!forWriting ==> obj.nFrag == old(obj.nFrag))
      ensures res.OK? && old(Own()) ==> Own()
      ensures SameData(obj.fs, old(obj.fs.Logical()), obj.fs.Logical())
      ensures res.OK? ==> old(obj.chain) <= obj.chain
      ensures old(Quiet()) ==> !res.DiskErr? && Quiet()
    {
      hide Sectors, FatFs.Table, Bits, Used, FatFs.Logical, Owned, Holds, Holding, OthersKept, Stays, FatFs.Valid, Quot,
        Rem, FfObj.Followable, MetaStep, Core, AllUsed, WasBroken, FatFs.Shape, Distinct, FfObj.Linked, Since, Own,
        NoRoom, Mask, InTable, Prod, Usable, Ready, Agrees, Clear, ClearTo, Buffer, LinksKept, FatFs.SectorOf,
        FfObj.Clen;
      CoreFacts();
      EntriesFit(obj.fs);
      ChainInTable(obj);
      NextStart(i);
      res := OK;
      fptr := fptr + obj.fs.cSize * 512;
      if forWriting {
        clst := SeekOver(i, g);
        if clst == 0 {
          return;
        }
      } else {
        CanFollow(i);
        clst := FollowOn(i, g);
        SinceFacts(g);
      }
      if clst == INVALID {
        return DiskErr, clst;
      }
      if clst <= 1 || clst >= obj.fs.nFatEnt {
        return IntErr, clst;
      }
      clust := clst;
    }

    /** Where cluster number i + 1 starts. */
    lemma NextStart(i: nat)
      requires Core() && i < |obj.chain|
      ensures var p := 512 * Prod(i, obj.fs.cSize) + obj.fs.cSize * 512;
        && p == 512 * Prod(i + 1, obj.fs.cSize) <= |data| * 512
        && (i + 1 == |obj.chain| <==> p == |data| * 512)
        && Quot((p - 1) / 512, obj.fs.cSize) == i
    {
      hide Sectors, FatFs.Table, Bits, Used, FatFs.Logical, Owned, Holds, Holding, FatFs.Valid, Quot, Rem;
      CoreFacts();
      var c := obj.fs.cSize;
      SectorAt(obj.fs, obj.chain, 0);
      assert Prod(i + 1, c) == Prod(i, c) + c;
      if i + 1 < |obj.chain| {
        ProdGrows(i + 1, |obj.chain|, c);
      }
      InNumber(i, Prod(i, c) + c - 1, c);
    }

    /** The pointer beyond the end makes the file longer. */
    method Extend()
      requires Core() && fptr <= |data| * 512
      modifies this`modified, obj`objSize
      ensures Core() && obj.objSize == Larger(old(obj.objSize), fptr)
      ensures (modified <==> old(modified) || fptr > old(obj.objSize))
    {
      hide Sectors, FatFs.Table, Bits, Used, FatFs.Logical, Owned, Holds, Holding, FatFs.Valid;
      if fptr > obj.objSize {
        obj.objSize := fptr;
        modified := true;
      }
    }

    /** get_fat() from cluster number i. */
    method FollowOn(ghost i: nat, ghost g: Start) returns (clst: nat)
      requires Core() && Since(g) && i < |obj.chain| && clust == obj.chain[i] && obj.Followable(i)
      modifies obj.fs`wFlag, obj.fs`winSect, obj.fs.win, obj.fs.disk`sec, obj.fs.disk`script
      ensures obj.fs.Valid() && Core() && Since(g) && Used(obj.fs) == old(Used(obj.fs))
      ensures obj.fs.Table() == old(obj.fs.Table())
      ensures SameData(obj.fs, old(obj.fs.Logical()), obj.fs.Logical())
      ensures clst != INVALID ==> Follows(obj.fs.nFatEnt, obj.chain, i, clst)
      ensures old(Quiet()) ==> clst != INVALID && Quiet()
    {
      hide Sectors, FatFs.Table, Bits, Used, FatFs.Logical, Owned, Holds, Holding, OthersKept, Stays, FatFs.Valid,
        Quot, Rem, FfObj.Followable, MetaStep, Follows;
      CoreFacts();
      ghost var l, w, q, u := obj.fs.Logical(), obj.fs.winSect, Quiet(), Used(obj.fs);
      clst := Next(obj, clust, i);
      MetaFacts(obj.fs, l, w, q);
      CoreAfter(l, w, q, u, g);
    }

    /** Where to start: at the current cluster, from which the pointer was at position p, when the target is
        there or beyond, otherwise at the first cluster.  clst: 0 if there is none and none can be had. */
    method SeekStart(target: nat, p: nat, ghost g: Start) returns (res: FResult, clst: nat, ghost i: nat)
      requires Core() && Since(g) && Positioned(p) && Sized(p) && 0 < target && fptr == 0
      requires obj.fs.fsType.EXFAT? ==> obj.nFrag == 0
      modifies this`fptr, this`clust, this`data
      modifies obj`stat, obj`sClust, obj`nCont, obj`nFrag, obj`chain, obj.fs`lastClst, obj.fs`freeClst, obj.fs`fsiFlag
      modifies obj.fs`wFlag, obj.fs`winSect, obj.fs.win, obj.fs.disk`sec, obj.fs.disk`script
      ensures obj.fs.Valid() && OthersKept(obj.fs, g, obj.fs.Logical())
      ensures res.OK? || res.DiskErr? || (res.IntErr? && WasBroken(g))
      ensures res.OK? ==> Core() && Since(g) && old(data) <= data && clust == clst
      ensures res.OK? ==> |data| == |old(data)| || |data| * 512 <= fptr + obj.fs.cSize * 512
      ensures res.OK? && clst == 0 ==> old(obj.chain) == [] && fptr == 0 == |data| && Sized(0) && NoRoom()
      ensures res.OK? && clst != 0 ==> Seeking(i) && fptr < target
      ensures old(obj.chain) != [] ==> obj.nFrag == old(obj.nFrag) && clst != 0
      ensures res.OK? && old(Own()) ==> Own()
      ensures SameData(obj.fs, old(obj.fs.Logical()), obj.fs.Logical())
      ensures res.OK? ==> old(obj.chain) <= obj.chain
      ensures old(Quiet()) ==> !res.DiskErr? && Quiet()
    {
      hide Sectors, FatFs.Table, Bits, Used, FatFs.Logical, Owned, Holds, Holding, OthersKept, Stays, FatFs.Valid,
        Quot, Rem, Prod, Core, AllUsed, WasBroken, FatFs.Shape, Distinct, FfObj.Linked;
      CoreFacts();
      SameDataSelf(obj.fs, obj.fs.Logical());
      ChainInTable(obj);
      var bcs := 512 * obj.fs.cSize;
      if p > 0 && Quot(target - 1, bcs) >= Quot(p - 1, bcs) {
        i := Quot((p - 1) / 512, obj.fs.cSize);
        ClusterBytes(p - 1, obj.fs.cSize);
        BaseBelow(target - 1, p - 1, bcs);
        fptr := p - 1 - Rem(p - 1, bcs);
        res, clst := OK, clust;
      } else {
        res, clst := SeekFirst(g);
        i := 0;
      }
    }

    /** Whether the file, made as long as position p needs, is sized right for it. */
    ghost predicate SizedBy(p: nat)
      requires 0 < obj.fs.cSize
      reads this`clust, this`data, obj`chain, obj`objSize, obj`stat, obj`nFrag
    {
      var n := Larger(obj.objSize, p);
      && p <= |data| * 512
      && (obj.fs.fsType.EXFAT? && obj.stat == 2 ==> |data| * 512 < Larger(n, 1) + obj.fs.cSize * 512)
      && (obj.fs.fsType.EXFAT? && obj.nFrag > 0 ==>
            0 < p == n && obj.chain != [] && clust == obj.chain[|obj.chain| - 1])
      && (!obj.fs.fsType.EXFAT? ==> n <= 0xFFFF_FFFF)
    }

    /** The pointer moves to byte ofs - 1 of the current cluster, number i, or past it; nsect: the sector
        there, if it is inside a sector. */
    method SeekIn(ofs: nat, ghost i: nat) returns (nsect: nat)
      requires Core() && Seeking(i) && 0 < ofs <= obj.fs.cSize * 512
      requires !obj.fs.fsType.EXFAT? ==> fptr + ofs <= 0xFFFF_FFFF
      requires obj.fs.fsType.EXFAT? && obj.nFrag > 0 ==> obj.objSize <= fptr
      modifies this`fptr
      ensures fptr == old(fptr) + ofs && SizedBy(fptr) && At((fptr - 1) / 512)
      ensures fptr % 512 != 0 ==> fptr / 512 < |data| && nsect == Sectors(obj.fs, obj.chain)[fptr / 512]
    {
      hide Sectors, FatFs.Table, Bits, Used, FatFs.Logical, Owned, Holds, Holding, FatFs.Valid, Quot, Rem, Prod, Core,
        FatFs.Shape, Distinct, FfObj.Linked;
      CoreFacts();
      ChainInTable(obj);
      EntriesFit(obj.fs);
      NextStart(i);
      PlaceIn(i, ofs);
      nsect := 0;
      if ofs % 512 != 0 {
        nsect := Clst2Sect(obj.fs, clust);
        nsect := nsect + ofs / 512;
      }
      fptr := fptr + ofs;
    }

    /** Byte number ofs of cluster number i, and the byte before it. */
    lemma PlaceIn(i: nat, ofs: nat)
      requires Core() && i < |obj.chain| && 0 < ofs <= obj.fs.cSize * 512
      ensures var p := 512 * Prod(i, obj.fs.cSize) + ofs;
        && Quot((p - 1) / 512, obj.fs.cSize) == i
        && p % 512 == ofs % 512
        && (ofs % 512 != 0 ==>
              && p / 512 < |Sectors(obj.fs, obj.chain)|
              && Sectors(obj.fs, obj.chain)[p / 512] == obj.fs.SectorOf(obj.chain[i]) + ofs / 512)
    {
      hide Sectors, FatFs.Table, Bits, Used, FatFs.Logical, Owned, Holds, Holding, FatFs.Valid, Quot, Rem, Prod, Core,
        FatFs.Shape, Distinct, FfObj.Linked;
      CoreFacts();
      var b, c := Prod(i, obj.fs.cSize), obj.fs.cSize;
      assert (512 * b + ofs - 1) / 512 == b + (ofs - 1) / 512;
      InNumber(i, b + (ofs - 1) / 512, c);
      if ofs % 512 != 0 {
        assert (512 * b + ofs) / 512 == b + ofs / 512;
        InNumber(i, b + ofs / 512, c);
        SectorAt(obj.fs, obj.chain, b + ofs / 512);
      }
    }

    /** The loop of f_lseek(): follow or stretch the chain until the target is in the current cluster, number
        j, or there is no cluster (clst 0). */
    method SeekClusters(ofs: nat, ghost i: nat, ghost g: Start)
      returns (res: FResult, left: nat, clst: nat, ghost j: nat)
      requires Core() && Since(g) && Seeking(i) && 0 < ofs && (obj.fs.fsType.EXFAT? || fptr + ofs <= 0xFFFF_FFFF)
      requires !forWriting ==> fptr + ofs <= obj.objSize && (obj.fs.fsType.EXFAT? ==> obj.nFrag == 0)
      modifies this`fptr, this`clust, this`data, this`modified
      modifies obj`objSize, obj`stat, obj`sClust, obj`nCont, obj`nFrag, obj`chain
      modifies obj.fs`lastClst, obj.fs`freeClst, obj.fs`fsiFlag
      modifies obj.fs`wFlag, obj.fs`winSect, obj.fs.win, obj.fs.disk`sec, obj.fs.disk`script
      ensures obj.fs.Valid() && OthersKept(obj.fs, g, obj.fs.Logical())
      ensures res.OK? || res.DiskErr? || (res.IntErr? && WasBroken(g))
      ensures res.OK? ==> Core() && Since(g) && old(data) <= data && (old(modified) ==> modified)
      ensures res.OK? ==> |data| == |old(data)| || |data| * 512 <= fptr + obj.fs.cSize * 512
      ensures res.OK? ==> old(obj.objSize) <= obj.objSize <= Larger(old(obj.objSize), fptr)
      ensures res.OK? && obj.objSize > old(obj.objSize) ==> modified
      ensures res.OK? ==> 0 < left && fptr + left == old(fptr) + ofs
      ensures res.OK? && clst != 0 ==> Seeking(j) && left <= obj.fs.cSize * 512
      ensures res.OK? && clst != 0 && !forWriting && obj.fs.fsType.EXFAT? ==> obj.nFrag == 0
      ensures res.OK? && clst == 0 ==> forWriting && 0 < fptr == obj.objSize == |data| * 512 && NoRoom()
      ensures res.OK? && clst == 0 ==> Sized(fptr) && At((fptr - 1) / 512)
      ensures res.OK? && old(Own()) ==> Own()
      ensures SameData(obj.fs, old(obj.fs.Logical()), obj.fs.Logical())
      ensures res.OK? ==> old(obj.chain) <= obj.chain
      ensures old(Quiet()) ==> !res.DiskErr? && Quiet()
    {
      hide *;
      CoreFacts();
      SinceFacts(g);
      ghost var l, ch, d, n := obj.fs.Logical(), obj.chain, data, obj.objSize;
      SameDataSelf(obj.fs, l);
      LargerBounds(n, fptr);
      SoughtIs(l, ch, d, n);
      res, left, clst, j := OK, ofs, clust, i;
      SeekingFacts(j);
      while left > 512 * obj.fs.cSize
        invariant old(Own()) ==> Own()
        invariant res.OK? && obj.fs.Valid() && OthersKept(obj.fs, g, obj.fs.Logical())
        invariant Core() && Since(g) && Seeking(j) && Sought(l, ch, d, n) && (old(modified) ==> modified)
        invariant 0 < left && fptr + left == old(fptr) + ofs && clst != 0
        invariant !forWriting && obj.fs.fsType.EXFAT? ==> obj.nFrag == 0
        invariant old(Quiet()) ==> Quiet()
        decreases left
      {
        SeekingFacts(j);
        SoughtIs(l, ch, d, n);
        LargerMoves(n, obj.objSize, fptr, fptr + obj.fs.cSize * 512);
        left := left - 512 * obj.fs.cSize;
        ghost var m := obj.fs.Logical();
        res, clst := SeekStep(j, g);
        SameDataTwice(obj.fs, l, m, obj.fs.Logical());
        SoughtIs(l, ch, d, n);
        if !res.OK? || clst == 0 {
          return;
        }
        j := j + 1;
      }
      SoughtIs(l, ch, d, n);
    }

    /** While seeking, from a file with these clusters, sectors and size on the logical disk l: the file may
        have become longer, by clusters up to the pointer, and no data changed. */
    ghost predicate Sought(l: seq<Sector>, ch: seq<nat>, d: seq<Sector>, n: nat)
      requires obj.fs.Valid() && obj.fs.Shape()
      reads this`fptr, this`data, this`modified, obj`chain, obj`objSize
      reads obj.fs`wFlag, obj.fs`winSect, obj.fs.win, obj.fs.disk`sec
    {
      && SameData(obj.fs, l, obj.fs.Logical()) && ch <= obj.chain && d <= data
      && (|data| == |d| || |data| * 512 <= fptr + obj.fs.cSize * 512)
      && n <= obj.objSize <= Larger(n, fptr) && (obj.objSize > n ==> modified)
    }

    lemma SoughtIs(l: seq<Sector>, ch: seq<nat>, d: seq<Sector>, n: nat)
      requires obj.fs.Valid() && obj.fs.Shape()
      ensures Sought(l, ch, d, n) <==>
              && SameData(obj.fs, l, obj.fs.Logical()) && ch <= obj.chain && d <= data
              && (|data| == |d| || |data| * 512 <= fptr + obj.fs.cSize * 512)
              && n <= obj.objSize <= Larger(n, fptr) && (obj.objSize > n ==> modified)
    {
      hide FatFs.Valid, FatFs.Shape, SameData;
    }

    lemma SeekingFacts(i: nat)
      requires 0 < obj.fs.cSize && Core() && Seeking(i)
      ensures clust != 0 && fptr % 512 == 0 && (obj.fs.fsType.EXFAT? && obj.nFrag > 0 ==> obj.objSize <= fptr)
    {
      hide Core, Holding, Owned, Sectors, FatFs.Valid, FatFs.Shape, Distinct, FfObj.Linked;
      CoreFacts();
    }

    /** From cluster number i, follow or stretch the chain to the cluster of byte ofs - 1 from its start; the
        pointer stops earlier if the chain cannot be stretched. */
    method SeekOn(ofs: nat, ghost i: nat, ghost g: Start) returns (res: FResult, nsect: nat)
      requires Core() && Since(g) && Seeking(i) && 0 < ofs && (obj.fs.fsType.EXFAT? || fptr + ofs <= 0xFFFF_FFFF)
      requires !forWriting ==> fptr + ofs <= obj.objSize && (obj.fs.fsType.EXFAT? ==> obj.nFrag == 0)
      modifies this`fptr, this`clust, this`data, this`modified
      modifies obj`objSize, obj`stat, obj`sClust, obj`nCont, obj`nFrag, obj`chain
      modifies obj.fs`lastClst, obj.fs`freeClst, obj.fs`fsiFlag
      modifies obj.fs`wFlag, obj.fs`winSect, obj.fs.win, obj.fs.disk`sec, obj.fs.disk`script
      ensures obj.fs.Valid() && OthersKept(obj.fs, g, obj.fs.Logical())
      ensures res.OK? || res.DiskErr? || (res.IntErr? && WasBroken(g))
      ensures res.OK? ==> Core() && Since(g) && old(data) <= data && (old(modified) ==> modified)
      ensures res.OK? ==> |data| == |old(data)| || |data| * 512 < fptr + obj.fs.cSize * 512
      ensures res.OK? ==> old(obj.objSize) <= obj.objSize <= Larger(old(obj.objSize), fptr)
      ensures res.OK? && obj.objSize > old(obj.objSize) ==> modified
      ensures res.OK? ==> SizedBy(fptr) && fptr > 0 && At((fptr - 1) / 512)
      ensures res.OK? && fptr % 512 != 0 ==> fptr / 512 < |data| && nsect == Sectors(obj.fs, obj.chain)[fptr / 512]
      ensures res.OK? && fptr != old(fptr) + ofs ==>
                forWriting && fptr < old(fptr) + ofs && fptr == obj.objSize == |data| * 512 && NoRoom()
      ensures res.OK? && old(Own()) ==> Own()
      ensures SameData(obj.fs, old(obj.fs.Logical()), obj.fs.Logical())
      ensures res.OK? ==> old(obj.chain) <= obj.chain
      ensures old(Quiet()) ==> !res.DiskErr? && Quiet()
    {
      hide *;
      CoreFacts();
      SameDataSelf(obj.fs, obj.fs.Logical());
      ghost var l := obj.fs.Logical();
      nsect := 0;
      var left, clst;
      ghost var j;
      res, left, clst, j := SeekClusters(ofs, i, g);
      if res.OK? {
        if clst == 0 {
          SizedAtEnd();
        } else {
          SeekingFacts(j);
          LargerMoves(old(obj.objSize), obj.objSize, fptr, fptr + left);
          nsect := SeekIn(left, j);
        }
      }
    }

    lemma SizedAtEnd()
      requires Core() && 0 < obj.fs.cSize && Sized(fptr) && fptr == obj.objSize > 0
      ensures SizedBy(fptr)
    {
      hide Core;
      CoreFacts();
    }

    lemma EmptyWithoutChain()
      requires Core()
      ensures obj.chain == [] ==> obj.objSize == 0
    {
      hide FatFs.Table, Bits, Used, FatFs.Logical, Owned, Holds, Holding, FatFs.Valid;
      CoreFacts();
      SectorAt(obj.fs, obj.chain, 0);
    }

    lemma SizedZero(p: nat)
      requires Core() && 0 < obj.fs.cSize && Sized(p) && (obj.fs.fsType.EXFAT? && p > 0 ==> obj.nFrag == 0)
      ensures SizedBy(0)
    {
      hide Core, Sectors;
      CoreFacts();
    }

    /** A seek that is not to the start: from the start, or from the current cluster, on to the target. */
    method SeekWalk(target: nat, p: nat, ghost g: Start) returns (res: FResult, nsect: nat)
      requires Core() && Since(g) && Positioned(p) && Sized(p) && 0 < target && fptr == 0
      requires if obj.fs.fsType.EXFAT? then obj.nFrag == 0 else target <= 0xFFFF_FFFF
      requires !forWriting ==> target <= obj.objSize
      modifies this`fptr, this`clust, this`data, this`modified
      modifies obj`objSize, obj`stat, obj`sClust, obj`nCont, obj`nFrag, obj`chain
      modifies obj.fs`lastClst, obj.fs`freeClst, obj.fs`fsiFlag
      modifies obj.fs`wFlag, obj.fs`winSect, obj.fs.win, obj.fs.disk`sec, obj.fs.disk`script
      ensures obj.fs.Valid() && OthersKept(obj.fs, g, obj.fs.Logical())
      ensures res.OK? || res.DiskErr? || (res.IntErr? && WasBroken(g))
      ensures res.OK? ==> Core() && Since(g) && old(data) <= data && (old(modified) ==> modified)
      ensures res.OK? ==> |data| == |old(data)| || |data| * 512 < fptr + obj.fs.cSize * 512
      ensures res.OK? ==> old(obj.objSize) <= obj.objSize <= Larger(old(obj.objSize), fptr)
      ensures res.OK? && obj.objSize > old(obj.objSize) ==> modified
      ensures res.OK? ==> SizedBy(fptr) && (fptr > 0 ==> At((fptr - 1) / 512))
      ensures res.OK? && fptr % 512 != 0 ==> fptr / 512 < |data| && nsect == Sectors(obj.fs, obj.chain)[fptr / 512]
      ensures res.OK? && fptr != target ==>
                forWriting && fptr < target && fptr == obj.objSize == |data| * 512 && NoRoom()
      ensures res.OK? && old(Own()) ==> Own()
      ensures SameData(obj.fs, old(obj.fs.Logical()), obj.fs.Logical())
      ensures res.OK? ==> old(obj.chain) <= obj.chain
      ensures old(Quiet()) ==> !res.DiskErr? && Quiet()
    {
      hide *;
      CoreFacts();
      SameDataSelf(obj.fs, obj.fs.Logical());
      EmptyWithoutChain();
      LargerBounds(obj.objSize, 0);
      ghost var l := obj.fs.Logical();
      var clst;
      ghost var i;
      nsect := 0;
      res, clst, i := SeekStart(target, p, g);
      if res.OK? {
        if clst != 0 {
          ghost var m := obj.fs.Logical();
          res, nsect := SeekOn(target - fptr, i, g);
          SameDataTwice(obj.fs, l, m, obj.fs.Logical());
        } else {
          SizedZero(0);
        }
      }
    }

    /** The walk to the target, from wherever the pointer was; nsect: the sector there, if it is inside a sector. */
    method SeekPlace(target: nat, ghost g: Start) returns (res: FResult, nsect: nat)
      requires Core() && Since(g) && Positioned(fptr) && Sized(fptr)
      requires if obj.fs.fsType.EXFAT? then obj.nFrag == 0 else target <= 0xFFFF_FFFF
      requires !forWriting ==> target <= obj.objSize
      modifies this`fptr, this`clust, this`data, this`modified
      modifies obj`objSize, obj`stat, obj`sClust, obj`nCont, obj`nFrag, obj`chain
      modifies obj.fs`lastClst, obj.fs`freeClst, obj.fs`fsiFlag
      modifies obj.fs`wFlag, obj.fs`winSect, obj.fs.win, obj.fs.disk`sec, obj.fs.disk`script
      ensures obj.fs.Valid() && OthersKept(obj.fs, g, obj.fs.Logical())
      ensures res.OK? || res.DiskErr? || (res.IntErr? && WasBroken(g))
      ensures res.OK? ==> Core() && Since(g) && old(data) <= data && (old(modified) ==> modified)
      ensures res.OK? ==> |data| == |old(data)| || |data| * 512 < fptr + obj.fs.cSize * 512
      ensures res.OK? ==> old(obj.objSize) <= obj.objSize <= Larger(old(obj.objSize), fptr)
      ensures res.OK? && obj.objSize > old(obj.objSize) ==> modified
      ensures res.OK? ==> SizedBy(fptr) && (fptr > 0 ==> At((fptr - 1) / 512))
      ensures res.OK? && fptr % 512 != 0 ==> fptr / 512 < |data| && nsect == Sectors(obj.fs, obj.chain)[fptr / 512]
      ensures res.OK? && fptr != target ==>
                forWriting && fptr < target && fptr == obj.objSize == |data| * 512 && NoRoom()
      ensures res.OK? && old(Own()) ==> Own()
      ensures res.OK? && old(Clear()) ==> ClearTo(old(obj.objSize)) && (obj.objSize == old(obj.objSize) ==> Clear())
      ensures SameData(obj.fs, old(obj.fs.Logical()), obj.fs.Logical())
      ensures old(Quiet()) ==> !res.DiskErr? && Quiet()
    {
      hide *;
      CoreFacts();
      SinceFacts(g);
      ghost var n, ch, d := obj.objSize, obj.chain, data;
      ClearIs();
      SameDataSelf(obj.fs, obj.fs.Logical());
      LargerBounds(n, 0);
      var p := fptr;
      fptr := 0;
      res, nsect := OK, 0;
      if target > 0 {
        res, nsect := SeekWalk(target, p, g);
      } else {
        SizedZero(p);
      }
      if res.OK? && old(Clear()) {
        ClearStays(ch, d, n);
      }
    }

    /** The normal seek: move the pointer to `target`. */
    method SeekTo(target: nat, ghost g: Start) returns (res: FResult)
      requires Core() && Since(g) && Positioned(fptr) && Sized(fptr) && (dirty ==> modified)
      requires if obj.fs.fsType.EXFAT? then obj.nFrag == 0 else target <= 0xFFFF_FFFF
      requires !forWriting ==> target <= obj.objSize
      modifies this`fptr, this`clust, this`data, this`modified, this`dirty, this`tracked, this`sect, buf
      modifies obj`objSize, obj`stat, obj`sClust, obj`nCont, obj`nFrag, obj`chain
      modifies obj.fs`lastClst, obj.fs`freeClst, obj.fs`fsiFlag
      modifies obj.fs`wFlag, obj.fs`winSect, obj.fs.win, obj.fs.disk`sec, obj.fs.disk`script
      ensures obj.fs.Valid() && OthersKept(obj.fs, g, obj.fs.Logical())
      ensures res.OK? || res.DiskErr? || (res.IntErr? && WasBroken(g))
      ensures res.OK? ==> Core() && Since(g) && Positioned(fptr) && Sized(fptr) && (dirty ==> modified)
      ensures res.OK? ==> old(data) <= data && obj.objSize == Larger(old(obj.objSize), fptr)
      ensures res.OK? ==> |data| == |old(data)| || |data| * 512 < fptr + obj.fs.cSize * 512
      ensures res.OK? && (old(modified) || obj.objSize > old(obj.objSize)) ==> modified
      ensures res.OK? && fptr != target ==>
                forWriting && fptr < target && fptr == obj.objSize == |data| * 512 && NoRoom()
      ensures res.OK? && old(Own()) ==> Own()
      ensures res.OK? && fptr % 512 == 0 ==> unchanged(this`sect, this`dirty, this`tracked, buf)
      ensures res.OK? && fptr % 512 == 0 ==> SameData(obj.fs, old(obj.fs.Logical()), obj.fs.Logical())
      ensures (old(tracked) ==> tracked) && (res.OK? && old(Clear()) && obj.objSize == old(obj.objSize) ==> Clear())
      ensures old(Quiet()) ==> !res.DiskErr? && Quiet()
    {
      hide *;
      CoreFacts();
      ghost var n := obj.objSize;
      var nsect;
      res, nsect := SeekPlace(target, g);
      if !res.OK? {
        return;
      }
      CoreFacts();
      LargerAgain(n, obj.objSize, fptr);
      LargerBounds(obj.objSize, fptr);
      res := Land(nsect, g);
    }

    /** The end of a seek: the file reaches as far as the pointer, the buffer shows the sector it is in. */
    method Land(nsect: nat, ghost g: Start) returns (res: FResult)
      requires Core() && Since(g) && SizedBy(fptr) && (fptr > 0 ==> At((fptr - 1) / 512)) && (dirty ==> modified)
      requires fptr % 512 != 0 ==> fptr / 512 < |data| && nsect == Sectors(obj.fs, obj.chain)[fptr / 512]
      modifies this`modified, this`dirty, this`tracked, this`sect, buf, obj`objSize, obj.fs.disk`sec, obj.fs.disk`script
      ensures obj.fs.Valid() && OthersKept(obj.fs, g, obj.fs.Logical())
      ensures res.OK? || res.DiskErr?
      ensures res.OK? ==> Core() && Since(g) && Positioned(fptr) && Sized(fptr) && (dirty ==> modified)
      ensures res.OK? ==> obj.objSize == Larger(old(obj.objSize), fptr)
      ensures (old(modified) ==> modified) && (obj.objSize > old(obj.objSize) ==> modified)
      ensures fptr % 512 == 0 && old(NoRoom()) ==> NoRoom()
      ensures res.OK? && old(Own()) ==> Own()
      ensures res.OK? && fptr % 512 == 0 ==> unchanged(this`sect, this`dirty, this`tracked, buf, obj.fs.disk)
      ensures old(tracked) ==> tracked
      ensures res.OK? && (old(sect) != sect || (old(Clear()) && obj.objSize == old(obj.objSize))) ==> Clear()
      ensures old(Quiet()) ==> res.OK? && Quiet()
    {
      hide Sectors, FatFs.Table, Bits, Used, FatFs.Logical, Owned, Holds, Holding, OthersKept, Stays, FatFs.Valid,
        Quot, Rem, Prod, Core, AllUsed, WasBroken, FatFs.Shape, Distinct, FfObj.Linked, At;
      CoreFacts();
      res := OK;
      Extend();
      if fptr % 512 != 0 {
        res := Load(nsect, fptr / 512, g);
        if res.OK? {
          CoreFacts();
        }
      }
    }

    /** f_lseek() on a file without error; aborted: the error is one to keep. */
    method SeekClipped(ofs: nat, ghost g: Start) returns (res: FResult, aborted: bool)
      requires Usable() && Since(g)
      modifies this`fptr, this`clust, this`data, this`modified, this`dirty, this`tracked, this`sect, buf
      modifies obj`objSize, obj`stat, obj`sClust, obj`nCont, obj`nFrag, obj`chain
      modifies obj.fs`lastClst, obj.fs`freeClst, obj.fs`fsiFlag
      modifies obj.fs`wFlag, obj.fs`winSect, obj.fs.win, obj.fs.disk`sec, obj.fs.disk`script
      ensures obj.fs.Valid() && OthersKept(obj.fs, g, obj.fs.Logical())
      ensures res.OK? || res.DiskErr? || (res.IntErr? && aborted && WasBroken(g))
      ensures !aborted ==> Usable() && Since(g)
      ensures !aborted && !res.OK? ==> fptr == old(fptr) && data == old(data) && obj.objSize == old(obj.objSize)
                                       && unchanged(this`sect, buf, obj`chain)
      ensures res.OK? ==> !aborted && old(data) <= data && obj.objSize == Larger(old(obj.objSize), fptr)
      ensures res.OK? ==> |data| == |old(data)| || |data| * 512 < fptr + obj.fs.cSize * 512
      ensures !aborted && (old(modified) || (res.OK? && obj.objSize > old(obj.objSize))) ==> modified
      ensures res.OK? && fptr != Reachable(ofs, old(obj.objSize)) ==>
                && forWriting && fptr < Reachable(ofs, old(obj.objSize))
                && fptr == obj.objSize == |data| * 512 && NoRoom()
      ensures !aborted && old(Own()) ==> Own()
      ensures res.OK? && fptr % 512 == 0 ==> unchanged(this`sect, this`dirty, this`tracked, buf)
      ensures res.OK? && fptr % 512 == 0 && !obj.fs.fsType.EXFAT? ==>
                SameData(obj.fs, old(obj.fs.Logical()), obj.fs.Logical())
      ensures (old(tracked) ==> tracked) && (!aborted && old(Clear()) && obj.objSize == old(obj.objSize) ==> Clear())
      ensures old(Quiet()) ==> Quiet() && (res.OK? || res.IntErr?)
    {
      hide *;
      ReadyFacts();
      CoreFacts();
      SizedFacts(fptr);
      ghost var n := obj.objSize;
      res, aborted := OK, false;
      if obj.fs.fsType.EXFAT? {
        res := Settle(g);
        SinceFacts(g);
        ReadyIs();
        if !res.OK? {
          return;
        }
      }
      CoreFacts();
      var target := ofs;
      if !obj.fs.fsType.EXFAT? && target >= 0x1_0000_0000 {
        target := 0xFFFF_FFFF;
      }
      if target > obj.objSize && !forWriting {
        target := obj.objSize;
      }
      TargetIs(ofs, n, target);
      res := SeekTo(target, g);
      if res.OK? {
        CoreFacts();
        ReadyIs();
      } else {
        aborted := true;
      }
    }

    /** f_lseek(): move the pointer to ofs, as far as the file reaches or can be stretched. */
    method Seek(ofs: nat) returns (res: FResult)
      requires err.OK? ==> Usable()
      modifies this`err, this`fptr, this`clust, this`data, this`modified, this`dirty, this`tracked, this`sect, buf
      modifies obj`objSize, obj`stat, obj`sClust, obj`nCont, obj`nFrag, obj`chain
      modifies obj.fs`lastClst, obj.fs`freeClst, obj.fs`fsiFlag
      modifies obj.fs`wFlag, obj.fs`winSect, obj.fs.win, obj.fs.disk`sec, obj.fs.disk`script
      ensures (res.OK? ==> old(err).OK? && err.OK?) && (res == err || res.DiskErr?)
      ensures err == old(err) || err.DiskErr? || (err.IntErr? && old(err.OK? && BadEntry()))
      ensures err.OK? ==> Usable() && Since(old(Now()))
      ensures err.OK? && !res.OK? ==> fptr == old(fptr) && Content() == old(Content())
      ensures res.OK? && fptr != Reachable(ofs, |old(Content())|) ==>
                && forWriting && |old(Content())| <= fptr < Reachable(ofs, |old(Content())|)
                && NoRoom() && fptr == |data| * 512
      ensures res.OK? ==> |Content()| == Larger(|old(Content())|, fptr) && (fptr > |old(Content())| ==> modified)
      ensures err.OK? && old(err).OK? ==> |data| == |old(data)| || |data| * 512 < fptr + obj.fs.cSize * 512
      ensures res.OK? ==> Content()[..|old(Content())|] == old(Content())
      ensures old(err).OK? ==> obj.fs.Valid() && OthersKept(obj.fs, old(Now()), obj.fs.Logical())
      ensures err.OK? && old(Own()) ==> Own()
      ensures res.OK? && fptr % 512 == 0 ==> unchanged(this`sect, this`dirty, this`tracked, buf)
      ensures res.OK? && fptr % 512 == 0 && !obj.fs.fsType.EXFAT? ==>
                SameData(obj.fs, old(obj.fs.Logical()), obj.fs.Logical())
      ensures (old(tracked) ==> tracked) && (err.OK? && old(modified) ==> modified)
      ensures old(err).OK? && err.OK? && old(Clear()) && |Content()| == |old(Content())| ==> Clear()
      ensures old(Quiet()) ==> Quiet() && (old(err).OK? ==> res.OK? || res.IntErr?)
    {
      hide *;
      res := err;
      if !res.OK? {
        return;
      }
      ReadyFacts();
      CoreFacts();
      ContentIs();
      ghost var g, d, n := Now(), data, obj.objSize;
      NowSince();
      BadIs();
      var aborted;
      res, aborted := SeekClipped(ofs, g);
      if aborted {
        err := res;
        return;
      }
      ReadyFacts();
      CoreFacts();
      ContentIs();
      LargerBounds(n, fptr);
      if res.OK? {
        LongerBytes(d, data, n, obj.objSize);
      }
    }

    lemma TargetIs(ofs: nat, n: nat, target: nat)
      requires var m := if !obj.fs.fsType.EXFAT? && ofs >= 0x1_0000_0000 then 0xFFFF_FFFF else ofs;
        target == if m > n && !forWriting then n else m
      ensures target == Reachable(ofs, n)
      ensures (!obj.fs.fsType.EXFAT? ==> target <= 0xFFFF_FFFF) && (!forWriting ==> target <= n)
    {
    }

    /** Where a seek to ofs in a file of n bytes ends, if there is room. */
    ghost function Reachable(ofs: nat, n: nat): nat {
      var m := if obj.fs.fsType.EXFAT? then ofs else Smaller(ofs, 0xFFFF_FFFF);
      if forWriting then m else Smaller(m, n)
    }

    // -------------------------------------------------------------- f_truncate()

    /** Number of clusters of the file up to position p. */
    ghost function ClustersTo(p: nat): nat
      requires 0 < obj.fs.cSize
    {
      if p == 0 then 0 else Quot((p - 1) / 512, obj.fs.cSize) + 1
    }

    /** The file has the clusters that its bytes need and no more. */
    ghost predicate Lean()
      requires 0 < obj.fs.cSize
      reads obj`chain, obj`objSize
    {
      |obj.chain| == ClustersTo(obj.objSize)
    }

    lemma LeanIs()
      requires Usable()
      ensures 0 < obj.fs.cSize && Core() && |Content()| == obj.objSize
      ensures Lean() <==> |data| * 512 < obj.objSize + obj.fs.cSize * 512
    {
      hide Sectors, FatFs.Table, Bits, Used, FatFs.Logical, Owned, Holds, Holding, FatFs.Valid, Quot, Rem, Prod, Core,
        Positioned, Sized;
      CoreFacts();
      var c, n := obj.fs.cSize, |obj.chain|;
      SectorAt(obj.fs, obj.chain, 0);
      if obj.objSize == 0 {
        NoClusters(c);
        if n > 0 {
          ProdGrows(0, n, c);
        }
      } else {
        var k := (obj.objSize - 1) / 512;
        SectorAt(obj.fs, obj.chain, k);
        Divided(k, c);
        var m := ClustersTo(obj.objSize);
        OneMore(m - 1, c);
        if m < n {
          ProdGrows(m, n, c);
        }
      }
    }

    /** Since the chain was ch and the clusters u were in use, the chain was cut to m clusters; the sectors of
        ch hold what they held. */
    ghost predicate CutFrom(ch: seq<nat>, u: seq<bool>, m: nat)
      reads this`sect, this`dirty, this`tracked, this`data, buf, obj`stat, obj`sClust, obj`nCont, obj`nFrag, obj`chain
      reads obj.fs`wFlag, obj.fs`winSect, obj.fs.win, obj.fs.disk`sec
    {
      && obj.Linked() && m <= |ch| && obj.chain == ch[..m] && (obj.fs.fsType.EXFAT? ==> obj.nFrag == 0)
      && Holding(obj.fs, ch, u, obj.fs.Logical(), obj.fs.winSect, data, Buffer())
      && OnlyFreed(u, ch, Used(obj.fs))
    }

    /** remove_chain() from cluster number k of the file. */
    method RemoveFrom(clst: nat, pclst: nat, ghost k: nat, ghost g: Start) returns (res: FResult)
      requires Core() && Since(g) && k < |obj.chain| && Removable(obj, k)
      requires clst == obj.chain[k] && pclst == if k == 0 then 0 else obj.chain[k - 1]
      modifies obj`chain, obj`stat, obj`sClust, obj.fs`freeClst, obj.fs`fsiFlag
      modifies obj.fs`wFlag, obj.fs`winSect, obj.fs.win, obj.fs.disk`sec, obj.fs.disk`script
      ensures obj.fs.Valid() && OthersKept(obj.fs, g, obj.fs.Logical())
      ensures res.OK? || res.DiskErr?
      ensures res.OK? ==> CutFrom(old(obj.chain), old(Used(obj.fs)), k) && Tables(g) && WindowAtMeta(obj.fs, g.w)
      ensures SameData(obj.fs, old(obj.fs.Logical()), obj.fs.Logical())
      ensures res.OK? ==>
                GivenBack(old(AllGo(obj, k)), old(Used(obj.fs)), old(obj.chain), k, Used(obj.fs))
      ensures res.OK? ==>
                Recounts(obj.fs, |old(obj.chain)| - k) && (old(CountOk(obj.fs) && AllGo(obj, k)) ==> CountOk(obj.fs))
      ensures res.OK? && obj.fs.fsType.EXFAT? && k < |old(obj.chain)| ==> Tidy(obj)
      ensures old(Quiet()) ==> res.OK? && Quiet()
    {
      hide Sectors, FatFs.Table, Bits, FatFs.Logical, Owned, Holding, FatFs.Valid, Used, Holds, SameData, OthersKept,
        Stays, FatFs.Shape, MetaStep, Core, Removable, EndMark, Cut, Freed, LinksKept, SameElsewhere, CountOk, Raised,
        Tidy, FatFs.SectorOf, Buffer, InTable, Distinct, FatFs.MaxClusters, Agrees;
      CoreFacts();
      ChainInTable(obj);
      ghost var fs, l, w, q, u, ch := obj.fs, obj.fs.Logical(), obj.fs.winSect, Quiet(), Used(obj.fs), obj.chain;
      ghost var t, free := fs.Table(), fs.freeClst;
      res := RemoveChain(obj, clst, pclst, k);
      if res.OK? {
        LinksStay(g, u, ch, t, fs.Table(), 0);
        LivesRaised(g.free, free, fs.nFatEnt, |ch| - k);
      }
      MetaFacts(fs, l, w, q);
      MetaKeepsOthers(fs, g, l, fs.Logical());
      HoldsThroughMeta(fs, ch, u, l, w, data, Buffer(), fs.Logical(), fs.winSect);
      if pclst == 0 {
        obj.sClust := 0;
      }
    }

    /** Remove the clusters behind the pointer. */
    method CutChain(ghost g: Start) returns (res: FResult)
      requires Core() && Since(g) && Positioned(fptr) && Sized(fptr) && fptr < obj.objSize
      modifies obj`chain, obj`stat, obj`sClust, obj.fs`freeClst, obj.fs`fsiFlag
      modifies obj.fs`wFlag, obj.fs`winSect, obj.fs.win, obj.fs.disk`sec, obj.fs.disk`script
      ensures obj.fs.Valid() && OthersKept(obj.fs, g, obj.fs.Logical())
      ensures res.OK? || res.DiskErr?
      ensures res.OK? ==>
                CutFrom(old(obj.chain), old(Used(obj.fs)), ClustersTo(fptr)) && Tables(g) && WindowAtMeta(obj.fs, g.w)
      ensures res.OK? ==> ClustersTo(fptr) <= |old(obj.chain)| && obj.chain == old(obj.chain)[..ClustersTo(fptr)]
      ensures SameData(obj.fs, old(obj.fs.Logical()), obj.fs.Logical())
      ensures res.OK? ==>
                GivenBack(old(AllGo(obj, ClustersTo(fptr))), old(Used(obj.fs)), old(obj.chain), ClustersTo(fptr),
                  Used(obj.fs))
      ensures res.OK? ==>
                && Recounts(obj.fs, |old(obj.chain)| - ClustersTo(fptr))
                && (old(CountOk(obj.fs) && AllGo(obj, ClustersTo(fptr))) ==> CountOk(obj.fs))
      ensures res.OK? && obj.fs.fsType.EXFAT? && ClustersTo(fptr) < |old(obj.chain)| ==> Tidy(obj)
      ensures old(Quiet()) ==> res.OK? && Quiet()
    {
      hide Sectors, FatFs.Table, Bits, FatFs.Logical, Owned, Holding, FatFs.Valid, Used, Holds, SameData, OthersKept,
        Stays, FatFs.Shape, Core, FfObj.Followable, At, Tidy, Freed, GivenBack,
        FatFs.SectorOf, FatFs.MaxClusters, Unused, LinksKept, View, Positioned, Quot, InBitmap,
        FatFs.InFat1, FreeKept, Counted;
      CoreFacts();
      EmptyWithoutChain();
      ChainInTable(obj);
      EntriesFit(obj.fs);
      ghost var l := obj.fs.Logical();
      CanRemove();
      if fptr == 0 {
        res := RemoveFrom(obj.sClust, 0, 0, g);
      } else {
        ghost var i, ch, u := ClustersTo(fptr) - 1, obj.chain, Used(obj.fs);
        CurrentIs();
        CanFollow(i);
        var ncl := FollowOn(i, g);
        ghost var m := obj.fs.Logical();
        res := OK;
        if ncl == INVALID {
          return DiskErr;
        }
        if ncl == 1 {
          return IntErr;
        }
        CoreFacts();
        if ncl < obj.fs.nFatEnt {
          CanRemove();
          res := RemoveFrom(ncl, clust, i + 1, g);
          SameDataTwice(obj.fs, l, m, obj.fs.Logical());
        } else {
          assert ch[..i + 1] == ch;
          NothingGiven(u, ch);
        }
      }
    }

    lemma CurrentIs()
      requires Core() && Positioned(fptr) && fptr > 0
      ensures var i := ClustersTo(fptr) - 1; i < |obj.chain| && clust == obj.chain[i]
    {
    }

    lemma CanRemove()
      requires Core() && Sized(fptr) && fptr < obj.objSize
      ensures forall k | 0 <= k < |obj.chain| :: Removable(obj, k)
    {
      hide Sectors, FatFs.Table, Bits, Used, FatFs.Logical, Owned, Holding, FatFs.Valid, Core;
      CoreFacts();
      forall k | 0 <= k < |obj.chain|
        ensures Removable(obj, k)
      {
        CanFollow(k);
        SizePositive(obj);
      }
    }

    /** Positions in the first m clusters of the chain ch, of which the last sector is that before p. */
    lemma InFirst(ch: seq<nat>, p: nat)
      requires 0 < obj.fs.cSize && p <= |Sectors(obj.fs, ch)| * 512
      ensures var m := ClustersTo(p);
        && m <= |ch|
        && |Sectors(obj.fs, ch[..m])| * 512 < p + obj.fs.cSize * 512
        && p <= |Sectors(obj.fs, ch[..m])| * 512
        && Sectors(obj.fs, ch[..m]) <= Sectors(obj.fs, ch)
    {
      hide Sectors, Quot, Rem, Prod;
      var c, m := obj.fs.cSize, ClustersTo(p);
      if p == 0 {
        SectorsOfPrefix(obj.fs, ch, 0);
        Unique(0, 0, c);
        NoClusters(c);
      } else {
        var k := (p - 1) / 512;
        SectorAt(obj.fs, ch, k);
        SectorsOfPrefix(obj.fs, ch, m);
        Divided(k, c);
        OneMore(m - 1, c);
      }
    }

    /** The file ends at the pointer: give up the sectors behind the cut, and write a dirty buffer, even if
        its sector is among them. */
    method FlushCut(ghost ch: seq<nat>, ghost u: seq<bool>, ghost g: Start) returns (res: FResult)
      requires buf.Length == 512 && buf != obj.fs.win && sect < obj.fs.disk.size
      requires obj.fs.Valid() && obj.fs.Shape() && obj.objSize == fptr
      requires fptr <= |data| * 512 && CutFrom(ch, u, ClustersTo(fptr))
      requires |u| == obj.fs.nFatEnt && g.u == u && Stays(g, u, ch) && OthersKept(obj.fs, g, obj.fs.Logical())
      requires Tables(g) && WindowAtMeta(obj.fs, g.w)
      requires fptr > 0 ==> ClustersTo(fptr) <= |ch| && clust == ch[ClustersTo(fptr) - 1]
      requires fptr % 512 != 0 ==> fptr / 512 < |Sectors(obj.fs, ch)| && sect == Sectors(obj.fs, ch)[fptr / 512]
      requires !obj.fs.fsType.EXFAT? ==> fptr <= 0xFFFF_FFFF
      modifies this`dirty, this`tracked, this`data, obj.fs.disk`sec, obj.fs.disk`script
      ensures obj.fs.Valid() && OthersKept(obj.fs, g, obj.fs.Logical())
      ensures res.OK? || res.DiskErr?
      ensures res.OK? ==> Core() && Since(g) && Positioned(fptr) && Sized(fptr) && !dirty
      ensures res.OK? ==> fptr <= |old(data)| * 512 && BytesOf(data, fptr) == BytesOf(old(data), fptr)
      ensures res.OK? ==> |data| == |Sectors(obj.fs, obj.chain)| && data <= old(data)
      ensures old(tracked) ==> tracked
      ensures !old(dirty) ==> unchanged(obj.fs.disk) && !dirty
      ensures Used(obj.fs) == old(Used(obj.fs)) && (CountOk(obj.fs) <==> old(CountOk(obj.fs)))
      ensures old(Quiet()) ==> res.OK? && Quiet()
    {
      hide Sectors, FatFs.Table, Bits, FatFs.Logical, FatFs.Valid, Used, Holds, OthersKept, FatFs.Shape, Quot, Owned,
        Stays, Holding, BytesOf, Home;
      res := OK;
      ghost var fs, l, w := obj.fs, obj.fs.Logical(), obj.fs.winSect;
      HoldFacts(fs, ch, u, l, w, data, Buffer());
      ghost var m := ClustersTo(fptr);
      HoldCut(fs, ch, u, l, w, data, Buffer(), m, Used(fs));
      InFirst(ch, fptr);
      StillStays(g, u, ch, m, Used(fs));
      if dirty {
        var ok := WriteData(obj.fs, buf[..], sect, 1);
        SplicedKeepsOthers(fs, g, u, ch, l, fs.Logical(), sect, 1);
        if !ok {
          return DiskErr;
        }
        dirty, tracked := false, true;
      }
      FewerBytes(data, |Sectors(fs, ch[..m])|, fptr, fptr);
      data := data[..|Sectors(fs, ch[..m])|];
    }

    lemma NowUsed()
      requires obj.fs.Valid()
      ensures Now().u == Used(obj.fs)
    {
    }

    lemma InSectorFacts(p: nat)
      requires 0 < obj.fs.cSize && Positioned(p)
      ensures p % 512 != 0 ==> p / 512 < |Sectors(obj.fs, obj.chain)| && sect == Sectors(obj.fs, obj.chain)[p / 512]
    {
    }

    lemma CutOffFacts(g: Start)
      requires Core() && Since(g) && Positioned(fptr) && Sized(fptr) && fptr < obj.objSize && g == Now()
      ensures buf.Length == 512 && buf != obj.fs.win && sect < obj.fs.disk.size
      ensures obj.fs.Valid() && obj.fs.Shape() && 0 < obj.fs.cSize
      ensures |Used(obj.fs)| == obj.fs.nFatEnt && g.u == Used(obj.fs)
      ensures Stays(g, Used(obj.fs), obj.chain) && OthersKept(obj.fs, g, obj.fs.Logical())
      ensures fptr <= |data| * 512 && (!obj.fs.fsType.EXFAT? ==> fptr <= 0xFFFF_FFFF)
      ensures fptr > 0 ==> ClustersTo(fptr) <= |obj.chain| && clust == obj.chain[ClustersTo(fptr) - 1]
      ensures fptr % 512 != 0 ==>
                fptr / 512 < |Sectors(obj.fs, obj.chain)| && sect == Sectors(obj.fs, obj.chain)[fptr / 512]
      ensures Clear() <==> Agrees(Sectors(obj.fs, obj.chain), data, sect, buf[..], obj.objSize)
    {
      hide *;
      CoreFacts();
      ClearIs();
      SinceParts(g);
      NowUsed();
      if fptr > 0 {
        CurrentIs();
      }
      SizedFacts(fptr);
      SizedInside(fptr);
      InSectorFacts(fptr);
    }

    /** f_truncate() on a file without error that ends behind the pointer. */
    method CutOff(ghost g: Start) returns (res: FResult)
      requires Core() && Since(g) && Positioned(fptr) && Sized(fptr) && fptr < obj.objSize && g == Now()
      modifies this`data, this`modified, this`dirty, this`tracked
      modifies obj`objSize, obj`stat, obj`sClust, obj`chain
      modifies obj.fs`freeClst, obj.fs`fsiFlag
      modifies obj.fs`wFlag, obj.fs`winSect, obj.fs.win, obj.fs.disk`sec, obj.fs.disk`script
      ensures obj.fs.Valid() && OthersKept(obj.fs, g, obj.fs.Logical())
      ensures res.OK? || res.DiskErr?
      ensures modified && obj.objSize == fptr
      ensures res.OK? ==> Core() && Since(g) && Positioned(fptr) && Sized(fptr) && !dirty
      ensures res.OK? ==> fptr <= |old(data)| * 512 && BytesOf(data, fptr) == BytesOf(old(data), fptr)
      ensures res.OK? ==> ClustersTo(fptr) <= |old(obj.chain)| && obj.chain == old(obj.chain)[..ClustersTo(fptr)]
      ensures res.OK? ==>
                GivenBack(old(AllGo(obj, ClustersTo(fptr))), old(Used(obj.fs)), old(obj.chain), ClustersTo(fptr),
                  Used(obj.fs))
      ensures res.OK? ==>
                && Recounts(obj.fs, |old(obj.chain)| - ClustersTo(fptr))
                && (old(CountOk(obj.fs) && AllGo(obj, ClustersTo(fptr))) ==> CountOk(obj.fs))
      ensures res.OK? && obj.fs.fsType.EXFAT? && ClustersTo(fptr) < |old(obj.chain)| ==> Tidy(obj)
      ensures res.OK? && !old(dirty) ==> SameData(obj.fs, old(obj.fs.Logical()), obj.fs.Logical())
      ensures (old(tracked) ==> tracked) && (res.OK? && old(Clear()) ==> Clear())
      ensures old(Quiet()) ==> res.OK? && Quiet()
    {
      hide *;
      CutOffFacts(g);
      ghost var d, n, ch, u := data, obj.objSize, obj.chain, Used(obj.fs);
      res := CutChain(g);
      VolumeFacts(obj.fs);
      obj.objSize := fptr;
      modified := true;
      if res.OK? {
        res := FlushCut(ch, u, g);
        if res.OK? && old(Clear()) {
          ClearCut(ch, d, n);
        }
      }
    }

    /** f_truncate(): the file ends at the pointer. */
    method Truncate() returns (res: FResult)
      requires err.OK? ==> Usable()
      modifies this`err, this`data, this`modified, this`dirty, this`tracked
      modifies obj`objSize, obj`stat, obj`sClust, obj`chain
      modifies obj.fs`freeClst, obj.fs`fsiFlag
      modifies obj.fs`wFlag, obj.fs`winSect, obj.fs.win, obj.fs.disk`sec, obj.fs.disk`script
      ensures res == if !old(err).OK? then old(err) else if !forWriting then Denied else err
      ensures err == old(err) || err.DiskErr?
      ensures err.OK? ==> Usable() && Since(old(Now()))
      ensures res.OK? ==> Content() == old(Content())[..fptr] && (fptr < |old(Content())| ==> modified)
      ensures old(err).OK? && !forWriting ==> err.OK? && Content() == old(Content())
      ensures old(err).OK? ==> obj.fs.Valid() && OthersKept(obj.fs, old(Now()), obj.fs.Logical())
      ensures old(err).OK? && (!forWriting || |old(Content())| <= fptr) ==> obj.chain == old(obj.chain)
      ensures err.OK? && old(err).OK? && fptr % 512 != 0 ==> Own()
      ensures (old(tracked) ==> tracked) && (old(modified) ==> modified)
      ensures old(err).OK? && err.OK? && old(Clear()) ==> Clear()
      ensures res.OK? && !old(dirty) ==> !dirty && SameData(obj.fs, old(obj.fs.Logical()), obj.fs.Logical())
      ensures res.OK? && fptr < |old(Content())| ==> obj.chain == old(obj.chain)[..ClustersTo(fptr)]
      ensures res.OK? && fptr < |old(Content())| ==>
                && GivenBack(old(AllGo(obj, ClustersTo(fptr))), old(Used(obj.fs)), old(obj.chain), ClustersTo(fptr),
                     Used(obj.fs))
                && Recounts(obj.fs, |old(obj.chain)| - ClustersTo(fptr))
                && (old(CountOk(obj.fs) && AllGo(obj, ClustersTo(fptr))) ==> CountOk(obj.fs))
      ensures res.OK? && fptr < |old(Content())| && obj.fs.fsType.EXFAT? && ClustersTo(fptr) < |old(obj.chain)| ==>
                Tidy(obj)
      ensures old(Quiet()) ==> Quiet() && err == old(err)
    {
      hide *;
      res := err;
      if !res.OK? {
        return;
      }
      ReadyFacts();
      CoreFacts();
      ContentIs();
      SizedFacts(fptr);
      SameDataSelf(obj.fs, obj.fs.Logical());
      ghost var g, d, n := Now(), data, obj.objSize;
      NowSince();
      SinceFacts(g);
      InSectorFacts(fptr);
      OwnIs();
      if !forWriting {
        return Denied;
      }
      FewerBytes(data, |data|, n, fptr);
      assert data[..|data|] == data;
      if fptr < obj.objSize {
        res := CutOff(g);
        if res.OK? {
          ReadyIs();
          CoreFacts();
          ContentIs();
          InSectorFacts(fptr);
          OwnIs();
        } else {
          err := res;
        }
      }
    }

    // -------------------------------------------------------------- f_sync()

    /** Write the links of the first fragment; what the file holds does not change, even if this fails. */
    method SettleFirst(ghost g: Start) returns (res: FResult)
      requires Core() && Since(g) && Sized(fptr) && obj.fs.fsType.EXFAT?
      modifies obj`stat, obj.fs`wFlag, obj.fs`winSect, obj.fs.win, obj.fs.disk`sec, obj.fs.disk`script
      ensures obj.fs.Valid() && Core() && Since(g) && Sized(fptr)
      ensures res.OK? || res.DiskErr?
      ensures res.OK? ==> obj.stat != 3
      ensures old(Quiet()) ==> res.OK? && Quiet()
    {
      hide Sectors, FatFs.Table, Bits, FatFs.Logical, Owned, Holding, FatFs.Valid, Used, Holds, SameData, OthersKept,
        Stays, FatFs.Shape, MetaStep, Core, FillFirst;
      CoreFacts();
      ghost var fs, l, w, q, u, t := obj.fs, obj.fs.Logical(), obj.fs.winSect, Quiet(), Used(obj.fs), obj.fs.Table();
      ghost var a, ch := obj.Status(), obj.chain;
      UsedByBits(fs, l);
      FirstFits(obj);
      res := FillFirstFrag(obj);
      FillsElsewhere(ch, t, a, fs.Table());
      LinksStay(g, u, ch, t, fs.Table(), 0);
      FatFacts(fs, l, w, q);
      FatOnly(fs, l, w, q);
      SameBits(fs, l, fs.Logical());
      UsedByBits(fs, l);
      if a.stat == 3 {
        if res.OK? {
          FillFirstHolds(t, a, ch, a.nCont);
        } else {
          ghost var k :| 0 <= k <= a.nCont && fs.Table() == FillFirst(t, obj.sClust, k);
          FillFirstHolds(t, a, ch, k);
        }
      }
      CoreAfter(l, w, q, u, g);
    }

    /** The part of f_sync() before the directory entry is stored: everything the file consists of is on the
        volume, as the FAT or a contiguous run describes it. */
    method SyncData() returns (res: FResult)
      requires Usable()
      modifies this`dirty, this`tracked, obj`stat, obj`nFrag
      modifies obj.fs`wFlag, obj.fs`winSect, obj.fs.win, obj.fs.disk`sec, obj.fs.disk`script
      ensures res.OK? || res.DiskErr?
      ensures Usable() && Content() == old(Content()) && Since(old(Now()))
      ensures (old(tracked) ==> tracked) && (old(Clear()) ==> Clear())
      ensures obj.fs.Valid() && OthersKept(obj.fs, old(Now()), obj.fs.Logical())
      ensures res.OK? && modified ==> !dirty && OnVolume(obj)
      ensures res.OK? && modified && obj.fs.fsType.EXFAT? ==> obj.stat != 3 && obj.nFrag == 0
      ensures old(Quiet()) ==> Quiet() && res.OK?
    {
      hide Sectors, FatFs.Table, Bits, Used, FatFs.Logical, Owned, Holds, Holding, OthersKept, Stays, FatFs.Valid,
        Quot, Rem, Prod, Core, FatFs.Shape, Distinct, FfObj.Linked, BytesOf, IsChain;
      CoreFacts();
      ghost var g := Now();
      NowSince();
      res := OK;
      if modified {
        res := Flush(g);
        if !res.OK? {
          return;
        }
        CoreFacts();
        if obj.fs.fsType.EXFAT? {
          res := SettleFirst(g);
          if res.OK? {
            res := Settle(g);
          }
        }
        CoreFacts();
        if res.OK? {
          IsOnVolume(obj);
        }
      }
    }
  }

  // ---------------------------------------------------------------- other files

  /** Whatever was done to one file since g, another one, with the clusters ch, is as it was: its clusters are
      still its own, their links the same, and their sectors hold the same data. */
  lemma OtherFileKept(fp: Fil, g: Start, ch: seq<nat>)
    requires fp.Core() && fp.Kept(g) && |g.l| == fp.obj.fs.disk.size
    requires InTable(fp.obj.fs.nFatEnt, ch) && Owned(fp.obj.fs, g.u, ch) && forall c | c in ch :: c !in g.ch
    ensures forall c | c in ch :: Used(fp.obj.fs)[c] && c !in fp.obj.chain && fp.obj.fs.Table()[c] == g.t[c]
    ensures IsChain(g.t, ch) ==> IsChain(fp.obj.fs.Table(), ch)
    ensures OnDisk(fp.obj.fs, ch, fp.obj.fs.Logical()) == OnDisk(fp.obj.fs, ch, g.l)
  {
    hide Sectors, FatFs.Table, Bits, Used, FatFs.Logical, Holds, Holding, FatFs.Valid, Home;
    fp.CoreFacts();
    forall i | 0 <= i < |ch|
      ensures Used(fp.obj.fs)[ch[i]] && ch[i] !in fp.obj.chain && fp.obj.fs.Table()[ch[i]] == g.t[ch[i]]
    {
      assert ch[i] in ch;
    }
    SectorsKept(fp.obj.fs, g, ch, fp.obj.fs.Logical());
  }

  lemma SectorsKept(fs: FatFs, g: Start, ch: seq<nat>, l: seq<Sector>)
    requires fs.Shape() && OthersKept(fs, g, l) && InTable(fs.nFatEnt, ch) && Owned(fs, g.u, ch)
    requires forall c | c in ch :: c !in g.ch
    ensures OnDisk(fs, ch, l) == OnDisk(fs, ch, g.l)
  {
    hide Sectors, Home;
    SectorsOnDisk(fs, ch);
    var a, b := OnDisk(fs, ch, l), OnDisk(fs, ch, g.l);
    forall k | 0 <= k < |Sectors(fs, ch)|
      ensures a[k] == b[k]
    {
      var s := Sectors(fs, ch)[k];
      SectorInHome(fs, g.u, ch, s);
      OwnSector(fs, g, ch, s);
    }
  }

  lemma OwnSector(fs: FatFs, g: Start, ch: seq<nat>, s: nat)
    requires fs.Shape() && |g.u| == fs.nFatEnt && InTable(fs.nFatEnt, ch) && Owned(fs, g.u, ch)
    requires (forall c | c in ch :: c !in g.ch) && s in Sectors(fs, ch)
    ensures Away(fs, s, g.u, g.ch)
  {
    SectorsOfClusters(fs, ch, s);
    var d :| d in ch && InCluster(fs, s, d);
    forall c | 2 <= c < fs.nFatEnt && InCluster(fs, s, c)
      ensures g.u[c] && c !in g.ch
    {
      OneCluster(fs, s, c, d);
    }
  }
}
