/** Objects on a volume (FFOBJID): following, stretching and removing their cluster chains. */
module Objects {
  import opened Disks
  import opened FatCodes
  import opened Volumes
  import opened Chains
  import opened ObjChains
  import opened Bitmaps

  /** What create_chain() returns for a broken chain. */
  const INT_ERR: nat := 1

  /** For every cluster, whether it is in use: on exFAT the bitmap says so, elsewhere the FAT. */
  ghost function Used(fs: FatFs): (u: seq<bool>)
    requires fs.Valid()
    reads fs`wFlag, fs`winSect, fs.win, fs.disk`sec
    ensures |u| == fs.nFatEnt
  {
    if fs.fsType.EXFAT? then Bits(fs, fs.Logical()) else UsedIn(fs.Table())
  }

  ghost function UsedIn(t: seq<nat>): (u: seq<bool>)
    ensures |u| == |t|
  {
    seq(|t|, c requires 0 <= c < |t| => c < 2 || t[c] != 0)
  }

  /** The cluster holds part of the exFAT bitmap. */
  ghost predicate Reserved(fs: FatFs, c: nat)
    requires fs.Shape()
  {
    fs.fsType.EXFAT? && 2 <= c < fs.nFatEnt && fs.SectorOf(c) <= fs.dataBase + (fs.nFatEnt - 3) / 8 / 512
  }

  /** The clusters ch are in use, and none of them holds the bitmap; those that hold it are in use too. */
  ghost predicate Owned(fs: FatFs, u: seq<bool>, ch: seq<nat>)
    requires fs.Shape() && |u| == fs.nFatEnt
  {
    && (forall c | c in ch :: c < fs.nFatEnt && u[c] && !Reserved(fs, c))
    && (forall c: nat | Reserved(fs, c) :: u[c])
  }

  /** Equal outside the FATs and the bitmap. */
  ghost predicate SameData(fs: FatFs, l: seq<Sector>, m: seq<Sector>)
    requires fs.Shape()
  {
    && |l| == |m|
    && forall s | 0 <= s < |l| && !fs.InFat1(s) && !fs.InFat2(s) && !(fs.fsType.EXFAT? && InBitmap(fs, s)) ::
         l[s] == m[s]
  }

  /** No FAT entry but those of the clusters ch, and entry r, changed; none became 1. */
  ghost predicate SameElsewhere(t: seq<nat>, t': seq<nat>, ch: seq<nat>, r: nat) {
    NoneBroken(t, t') && forall c | 0 <= c < |t| && c !in ch && c != r :: t'[c] == t[c]
  }

  /** No entry became 1, which is no link and no end mark. */
  ghost predicate NoneBroken(t: seq<nat>, t': seq<nat>) {
    |t'| == |t| && forall c | 2 <= c < |t| && t'[c] == 1 :: t[c] == 1
  }

  /** Sector w is `was`, none, or one of the FAT or the bitmap. */
  ghost predicate Aside(fs: FatFs, was: nat, w: nat)
    requires fs.Shape()
  {
    w == was || w == INVALID || fs.InFat1(w) || (fs.fsType.EXFAT? && InBitmap(fs, w))
  }

  /** Where the window may be after looking at the FAT and the bitmap. */
  ghost predicate WindowAtMeta(fs: FatFs, was: nat)
    requires fs.Shape()
    reads fs`winSect
  {
    Aside(fs, was, fs.winSect)
  }

  /** A value of the FAT or the window moved, but nothing an object depends on. */
  twostate predicate Unchanged(fs: FatFs)
    reads fs`wFlag, fs`winSect, fs.win, fs.disk`sec
  {
    old(fs.Valid()) && fs.Valid() && fs.Table() == old(fs.Table()) && Used(fs) == old(Used(fs))
  }

  /** flags & 2 */
  function Contiguous(flags: nat): (r: nat)
    ensures r == 2 * (flags / 2 % 2)
  {
    if flags / 2 % 2 == 1 then 2 else 0
  }

  class FfObj {
    const fs: FatFs
    var stat: nat
    var sClust: nat       // start cluster, 0: none
    var objSize: nat
    var nCont: nat
    var nFrag: nat
    ghost var chain: seq<nat>

    ghost function Status(): Alloc
      reads this`stat, this`nCont, this`nFrag
    {
      if fs.fsType.EXFAT? then Alloc(stat, nCont, nFrag) else ON_FAT
    }

    /** Number of clusters of the object size - 1; negative for size 0. */
    function Clen(): int
      requires 1 <= fs.cSize
      reads this`objSize
    {
      if objSize == 0 then -1 else Quot((objSize - 1) / 512 % 0x1_0000_0000, fs.cSize)
    }

    /** The object's clusters are `chain`, as its status and the volume describe it. */
    ghost predicate Linked()
      reads this`stat, this`sClust, this`nCont, this`nFrag, this`chain, fs`wFlag, fs`winSect, fs.win, fs.disk`sec
    {
      && fs.Valid()
      && sClust == (if chain == [] then 0 else chain[0])
      && (chain == [] ==> Status().nFrag == 0 && Status().stat != 3)
      && Describes(Status(), chain)
    }

    /** The volume and the chain status a describe the clusters ch. */
    ghost predicate Describes(a: Alloc, ch: seq<nat>)
      requires fs.Valid()
      reads fs`wFlag, fs`winSect, fs.win, fs.disk`sec
    {
      && (ch != [] ==> Holds(fs.Table(), a, ch))
      && Owned(fs, Used(fs), ch)
    }

    /** get_fat() can follow cluster number i of the chain. */
    ghost predicate Followable(i: nat)
      requires 1 <= fs.cSize
      reads this`stat, this`nCont, this`nFrag, this`chain, this`objSize
    {
      && i < |chain|
      && Readable(Status(), chain, i)
      && (fs.fsType.EXFAT? ==> 0 <= Clen() && (stat == 2 ==> Clen() + 1 == |chain|))
    }

    constructor (f: FatFs)
      requires f.Valid() && Owned(f, Used(f), [])
      ensures fs == f && chain == [] && Linked() && objSize == 0
    {
      fs, stat, sClust, objSize, nCont, nFrag, chain := f, 0, 0, 0, 0, 0, [];
    }

    /** The object that f_open() finds in a directory entry: bit 1 of the flags says that it is contiguous. */
    constructor Open(f: FatFs, flags: nat, start: nat, size: nat, ghost ch: seq<nat>)
      requires f.Valid() && Owned(f, Used(f), ch) && start == if ch == [] then 0 else ch[0]
      requires ch != [] ==>
                 Holds(f.Table(), if f.fsType.EXFAT? then Alloc(Contiguous(flags), 0, 0) else ON_FAT, ch)
      ensures fs == f && chain == ch && Linked() && objSize == size && nFrag == 0 && stat == Contiguous(flags)
    {
      fs, stat, sClust, objSize, nCont, nFrag, chain := f, Contiguous(flags), start, size, 0, 0, ch;
    }

    /** get_fat() */
    method GetFat(clst: nat) returns (val: nat)
      requires fs.Valid()
      modifies fs`wFlag, fs`winSect, fs.win, fs.disk`sec, fs.disk`script
      ensures Unchanged(fs) && fs.SameButMirror(old(fs.Logical()), fs.Logical())
      ensures fs.WindowAtFat(old(fs.winSect))
      ensures !(2 <= clst < fs.nFatEnt) || (fs.fsType.EXFAT? && objSize == 0) ==> val == 1
      ensures 2 <= clst < fs.nFatEnt && val != INVALID ==>
                val == if fs.fsType.EXFAT? then View(fs.Table(), Status(), sClust, Clen(), clst) else fs.Table()[clst]
      ensures |old(fs.disk.script)| == 0 ==> |fs.disk.script| == 0 && val != INVALID
    {
      hide FatFs.Table, FatFs.Logical, Bits, Quot;
      if clst < 2 || clst >= fs.nFatEnt {
        return 1;
      }
      if fs.fsType.EXFAT? {
        if objSize == 0 {
          return 1;
        }
        var cofs := Sub32(clst, sClust);
        var clen := Clen();
        if stat == 2 && cofs <= clen {
          return if cofs == clen then EOC31 else clst + 1;
        }
        if stat == 3 && cofs < nCont {
          return clst + 1;
        }
        if stat == 2 {
          return 1;
        }
        if nFrag != 0 {
          return EOC31;
        }
      }
      ghost var l := fs.Logical();
      val := fs.GetFat(clst);
      SameUsed(fs, l);
    }

    /** What get_fat() says about a cluster of the object's chain. */
    lemma GetFatFollows(i: nat)
      requires Linked() && Followable(i)
      ensures Follows(fs.nFatEnt, chain, i,
                if fs.fsType.EXFAT? then View(fs.Table(), Status(), sClust, Clen(), chain[i]) else fs.Table()[chain[i]])
    {
      if fs.fsType.EXFAT? {
        ViewFollows(fs.Table(), Status(), chain, i, Clen());
      }
    }
  }

  // ---------------------------------------------------------------- what a step may change

  lemma VolumeFacts(fs: FatFs)
    requires fs.Valid()
    ensures fs.Shape() && 3 <= fs.nFatEnt <= EOC31 < INVALID && 1 <= fs.cSize
  {
  }

  /** Since the logical disk was l and the window showed sector w, only FAT sectors changed; on a device
      without faults (quiet) none was met. */
  ghost predicate FatStep(fs: FatFs, l: seq<Sector>, w: nat, quiet: bool)
    reads fs`wFlag, fs`winSect, fs.win, fs.disk`sec, fs.disk`script
  {
    && fs.Valid()
    && fs.SameOutsideFat(l, fs.Logical())
    && fs.WindowAtFat(w)
    && (quiet ==> |fs.disk.script| == 0)
  }

  lemma FatStart(fs: FatFs, quiet: bool)
    requires fs.Valid() && (quiet ==> |fs.disk.script| == 0)
    ensures FatStep(fs, fs.Logical(), fs.winSect, quiet)
  {
  }

  /** What FatStep says about a state, to go on from there. */
  lemma FatFacts(fs: FatFs, l: seq<Sector>, w: nat, quiet: bool)
    requires FatStep(fs, l, w, quiet)
    ensures fs.Valid() && fs.SameOutsideFat(l, fs.Logical()) && (quiet ==> |fs.disk.script| == 0)
    ensures fs.WindowAtFat(w)
    ensures fs.winSect == w || fs.winSect == INVALID || fs.InFat1(fs.winSect)
  {
  }

  /** A look at the FAT, as such a change. */
  lemma FatRead(fs: FatFs, l: seq<Sector>, w: nat, quiet: bool)
    requires fs.Valid() && fs.SameButMirror(l, fs.Logical()) && fs.WindowAtFat(w)
    requires quiet ==> |fs.disk.script| == 0
    ensures FatStep(fs, l, w, quiet)
  {
  }

  /** A further change of the FAT, from the state with the logical disk m and the window at v. */
  lemma FatTwice(fs: FatFs, l: seq<Sector>, w: nat, quiet: bool, m: seq<Sector>, v: nat)
    requires fs.Valid() && fs.SameOutsideFat(l, m) && fs.SameOutsideFat(m, fs.Logical()) && fs.WindowAtFat(v)
    requires v == w || v == INVALID || fs.InFat1(v)
    requires quiet ==> |fs.disk.script| == 0
    ensures FatStep(fs, l, w, quiet)
  {
  }

  /** Since the logical disk was l and the window showed sector w, the volume changed in the FAT and the
      bitmap only; on a device without faults (quiet) none was met. */
  ghost predicate MetaStep(fs: FatFs, l: seq<Sector>, w: nat, quiet: bool)
    reads fs`wFlag, fs`winSect, fs.win, fs.disk`sec, fs.disk`script
  {
    && fs.Valid()
    && SameData(fs, l, fs.Logical())
    && WindowAtMeta(fs, w)
    && (quiet ==> |fs.disk.script| == 0)
  }

  lemma MetaStart(fs: FatFs, quiet: bool)
    requires fs.Valid() && (quiet ==> |fs.disk.script| == 0)
    ensures MetaStep(fs, fs.Logical(), fs.winSect, quiet)
  {
  }

  /** Two such changes in a row. */
  lemma MetaTwice(fs: FatFs, l: seq<Sector>, w: nat, quiet: bool, m: seq<Sector>, v: nat, quiet': bool)
    requires fs.Shape() && SameData(fs, l, m)
    requires v == w || v == INVALID || fs.InFat1(v) || (fs.fsType.EXFAT? && InBitmap(fs, v))
    requires MetaStep(fs, m, v, quiet') && (quiet ==> quiet')
    ensures MetaStep(fs, l, w, quiet)
  {
  }

  lemma SameDataSelf(fs: FatFs, l: seq<Sector>)
    requires fs.Shape()
    ensures SameData(fs, l, l)
  {
  }

  lemma SameDataTwice(fs: FatFs, l: seq<Sector>, m: seq<Sector>, n: seq<Sector>)
    requires fs.Shape() && SameData(fs, l, m) && SameData(fs, m, n)
    ensures SameData(fs, l, n)
  {
  }

  /** What MetaStep says about a state, to go on from there. */
  lemma MetaFacts(fs: FatFs, l: seq<Sector>, w: nat, quiet: bool)
    requires MetaStep(fs, l, w, quiet)
    ensures fs.Shape() && fs.Valid() && SameData(fs, l, fs.Logical()) && (quiet ==> |fs.disk.script| == 0)
    ensures var v := fs.winSect;
      v == w || v == INVALID || fs.InFat1(v) || (fs.fsType.EXFAT? && InBitmap(fs, v))
  {
  }

  /** Reading the FAT, as a change of FAT and bitmap. */
  lemma ReadOnly(fs: FatFs, l: seq<Sector>, w: nat, quiet: bool)
    requires fs.Valid() && fs.SameButMirror(l, fs.Logical()) && fs.WindowAtFat(w)
    requires quiet ==> |fs.disk.script| == 0
    ensures MetaStep(fs, l, w, quiet)
  {
  }

  /** FAT changes, as a change of FAT and bitmap. */
  lemma FatOnly(fs: FatFs, l: seq<Sector>, w: nat, quiet: bool)
    requires FatStep(fs, l, w, quiet)
    ensures MetaStep(fs, l, w, quiet)
  {
  }

  lemma MirrorKeepsData(fs: FatFs, l: seq<Sector>, m: seq<Sector>)
    requires fs.Shape() && fs.SameButMirror(l, m)
    ensures SameData(fs, l, m)
  {
  }

  lemma LinkedFacts(obj: FfObj)
    requires obj.Linked()
    ensures obj.fs.Valid() && obj.fs.Shape() && obj.fs.nFatEnt <= EOC31 && 1 <= obj.fs.cSize
    ensures Owned(obj.fs, Used(obj.fs), obj.chain)
    ensures obj.chain != [] ==> Holds(obj.fs.Table(), obj.Status(), obj.chain) && obj.sClust == obj.chain[0]
    ensures obj.chain != [] ==> Distinct(obj.chain)
    ensures obj.fs.fsType.EXFAT? ==> Mask(obj.fs.fsType, 0xFFFF_FFFF) == EOC31
  {
  }

  lemma ChainInTable(obj: FfObj)
    requires obj.Linked()
    ensures forall i | 0 <= i < |obj.chain| :: 2 <= obj.chain[i] < obj.fs.nFatEnt
  {
  }

  /** The object and what it depends on are as before. */
  twostate predicate Kept(obj: FfObj)
    reads obj`stat, obj`sClust, obj`nCont, obj`nFrag, obj`chain, obj.fs`wFlag, obj.fs`winSect, obj.fs.win
    reads obj.fs.disk`sec
  {
    && Unchanged(obj.fs) && old(obj.Linked()) && obj.Linked()
    && obj.chain == old(obj.chain) && obj.Status() == old(obj.Status())
  }

  // ---------------------------------------------------------------- the search for a free cluster

  /** Since the logical disk was l and the window showed sector w, the FAT was looked at: at most mirror
      sectors changed; on a device without faults (quiet) none was met. */
  ghost predicate Looked(fs: FatFs, l: seq<Sector>, w: nat, quiet: bool)
    reads fs`wFlag, fs`winSect, fs.win, fs.disk`sec, fs.disk`script
  {
    && fs.Valid()
    && fs.SameButMirror(l, fs.Logical())
    && fs.WindowAtFat(w)
    && (quiet ==> |fs.disk.script| == 0)
  }

  lemma LookedStart(fs: FatFs, quiet: bool)
    requires fs.Valid() && (quiet ==> |fs.disk.script| == 0)
    ensures Looked(fs, fs.Logical(), fs.winSect, quiet)
  {
  }

  lemma LookedFacts(fs: FatFs, l: seq<Sector>, w: nat, quiet: bool)
    requires Looked(fs, l, w, quiet)
    ensures fs.Valid() && fs.SameButMirror(l, fs.Logical()) && fs.WindowAtFat(w) && (quiet ==> |fs.disk.script| == 0)
    ensures fs.winSect == w || fs.winSect == INVALID || fs.InFat1(fs.winSect)
  {
  }

  /** A further look, from the state with the logical disk m and the window at v. */
  lemma LookedTwice(fs: FatFs, l: seq<Sector>, w: nat, quiet: bool, m: seq<Sector>, v: nat)
    requires fs.Valid() && fs.SameButMirror(l, m) && fs.SameButMirror(m, fs.Logical()) && fs.WindowAtFat(v)
    requires v == w || v == INVALID || fs.InFat1(v)
    requires quiet ==> |fs.disk.script| == 0
    ensures Looked(fs, l, w, quiet)
  {
  }

  /** The scan of create_chain() on FAT12/16/32: the first free cluster after scl, around the end of the
      FAT; 0 when there is none, 1 on a broken entry. */
  method SearchFat(fs: FatFs, scl: nat) returns (r: nat)
    requires fs.Valid() && !fs.fsType.EXFAT? && 1 <= scl < fs.nFatEnt
    modifies fs`wFlag, fs`winSect, fs.win, fs.disk`sec, fs.disk`script
    ensures fs.Valid() && fs.Table() == old(fs.Table()) && fs.SameButMirror(old(fs.Logical()), fs.Logical())
    ensures fs.WindowAtFat(old(fs.winSect))
    ensures r == INVALID || r == 1 || Found(UsedIn(fs.Table()), scl - 1, r)
    ensures r == 1 ==> exists c | 2 <= c < fs.nFatEnt :: fs.Table()[c] == 1
    ensures |old(fs.disk.script)| == 0 ==> |fs.disk.script| == 0 && r != INVALID
  {
    hide *;
    ghost var l, w, q, t := fs.Logical(), fs.winSect, |fs.disk.script| == 0, fs.Table();
    VolumeFacts(fs);
    LookedStart(fs, q);
    SeenNone(UsedIn(t), scl - 1);
    var ncl := scl;
    ghost var wrapped := false;
    while true
      invariant Looked(fs, l, w, q) && fs.Valid() && fs.Table() == t
      invariant if wrapped then 2 <= ncl < scl else scl <= ncl < fs.nFatEnt
      invariant Seen(UsedIn(t), scl - 1, ncl - 1, wrapped)
      decreases if wrapped then scl - ncl else fs.nFatEnt + scl - ncl
    {
      ncl := ncl + 1;
      if ncl >= fs.nFatEnt {
        SeenTurns(UsedIn(t), scl - 1, ncl - 2);
        ncl, wrapped := 2, true;
        if ncl > scl {
          LookedFacts(fs, l, w, q);
          return 0;
        }
      }
      LookedFacts(fs, l, w, q);
      ghost var m, v := fs.Logical(), fs.winSect;
      var cs := fs.GetFat(ncl);
      LookedTwice(fs, l, w, q, m, v);
      LookedFacts(fs, l, w, q);
      SeenEntry(t, scl - 1, ncl - 2, wrapped);
      if cs == 0 {
        return ncl;
      }
      if cs == 1 || cs == INVALID {
        return cs;
      }
      if ncl == scl {
        return 0;
      }
    }
  }

  /** One more cluster of the scan: it is the answer, or it is seen and may be the last one. */
  lemma SeenNext(u: seq<bool>, start: nat, val: nat, wrapped: bool)
    requires val + 2 < |u| && Seen(u, start, val, wrapped)
    requires if wrapped then val <= start else start <= val
    ensures u[val + 2] ==> Seen(u, start, val + 1, wrapped)
    ensures u[val + 2] && wrapped && val + 1 == start ==> Found(u, start, 0)
    ensures !u[val + 2] ==> Found(u, start, val + 2)
  {
  }

  /** The same for an entry of the FAT. */
  lemma SeenEntry(t: seq<nat>, start: nat, val: nat, wrapped: bool)
    requires val + 2 < |t| && Seen(UsedIn(t), start, val, wrapped)
    requires if wrapped then val <= start else start <= val
    ensures t[val + 2] != 0 ==> Seen(UsedIn(t), start, val + 1, wrapped)
    ensures t[val + 2] != 0 && wrapped && val + 1 == start ==> Found(UsedIn(t), start, 0)
    ensures t[val + 2] == 0 ==> Found(UsedIn(t), start, val + 2)
  {
    SeenNext(UsedIn(t), start, val, wrapped);
  }

  lemma SeenNone(u: seq<bool>, start: nat)
    ensures Seen(u, start, start, false)
  {
  }

  /** Passing the end of the table. */
  lemma SeenTurns(u: seq<bool>, start: nat, val: nat)
    requires val + 2 >= |u| && Seen(u, start, val, false)
    ensures Seen(u, start, 0, true)
    ensures start == 0 ==> Found(u, start, 0)
  {
  }

  // ---------------------------------------------------------------- stretching a chain, FAT12/16/32

  /** Where the search for the first cluster of a new chain is to begin, as the volume suggests. */
  function Suggested(last: nat, n: nat): nat {
    if last == 0 || last >= n then 1 else last
  }

  /** The free cluster r is the one that create_chain() is to take for an object that ends with clst (0: a new one),
      with the clusters u in use and the last cluster allocated `last`: on exFAT the first one from clst, or where the
      volume suggests, on; elsewhere the one after clst, and if that is in use the first one after the suggested. */
  ghost predicate FirstChoice(exfat: bool, u: seq<bool>, last: nat, clst: nat, r: nat) {
    var n := |u|;
    if exfat then
      var scl := if clst == 0 then Suggested(last, n) else clst;
      Found(u, if 2 <= scl < n then scl - 2 else 0, r)
    else if clst == 0 then Found(u, Suggested(last, n) - 1, r)
    else
      var next := if clst + 1 >= n then 2 else clst + 1;
      if next < n && !u[next] then r == next
      else 1 <= clst && Found(u, (if 2 <= last < n then last else clst) - 1, r)
  }

  lemma NextChosen(t: seq<nat>, last: nat, clst: nat, r: nat)
    requires clst != 0 && r == (if clst + 1 >= |t| then 2 else clst + 1) < |t| && t[r] == 0 && 2 <= r
    ensures FirstChoice(false, UsedIn(t), last, clst, r)
  {
    hide Found;
  }

  lemma SearchChosen(t: seq<nat>, last: nat, clst: nat, start: nat, r: nat)
    requires 1 <= start < |t| && Found(UsedIn(t), start - 1, r)
    requires clst == 0 ==> start == Suggested(last, |t|)
    requires clst != 0 ==>
               var next := if clst + 1 >= |t| then 2 else clst + 1;
               next < |t| && t[next] != 0 && start == if 2 <= last < |t| then last else clst
    ensures r == 0 ==> AllUsed(UsedIn(t))
    ensures r != 0 ==> 2 <= r < |t| && t[r] == 0 && FirstChoice(false, UsedIn(t), last, clst, r)
  {
  }

  /** The new cluster create_chain() takes on FAT12/16/32: the one after clst if it is free, otherwise the
      first free one after the suggested start. */
  method PickFat(fs: FatFs, clst: nat, scl: nat) returns (ncl: nat)
    requires fs.Valid() && !fs.fsType.EXFAT? && 1 <= scl < fs.nFatEnt
    requires scl == if clst == 0 then Suggested(fs.lastClst, fs.nFatEnt) else clst
    modifies fs`wFlag, fs`winSect, fs.win, fs.disk`sec, fs.disk`script
    ensures fs.Valid() && fs.Table() == old(fs.Table()) && fs.SameButMirror(old(fs.Logical()), fs.Logical())
    ensures fs.WindowAtFat(old(fs.winSect))
    ensures ncl == 0 ==> AllUsed(UsedIn(fs.Table()))
    ensures ncl == 1 ==> exists c | 2 <= c < fs.nFatEnt :: fs.Table()[c] == 1
    ensures ncl != 0 && ncl != 1 && ncl != INVALID ==> 2 <= ncl < fs.nFatEnt && fs.Table()[ncl] == 0
    ensures ncl != 0 && ncl != 1 && ncl != INVALID ==>
              FirstChoice(false, UsedIn(fs.Table()), fs.lastClst, clst, ncl)
    ensures |old(fs.disk.script)| == 0 ==> |fs.disk.script| == 0 && ncl != INVALID
  {
    fs.SizesFit();
    hide FatFs.Table, FatFs.Logical, FatFs.Valid, FatFs.Shape, Found, AllUsed, FirstChoice, UsedIn;
    VolumeFacts(fs);
    ghost var t := fs.Table();
    var start := scl;
    ncl := 0;
    if scl == clst {
      ncl := scl + 1;
      if ncl >= fs.nFatEnt {
        ncl := 2;
      }
      var cs := fs.GetFat(ncl);
      if cs == 1 || cs == INVALID {
        return cs;
      }
      if cs != 0 {
        cs := fs.lastClst;
        if 2 <= cs < fs.nFatEnt {
          start := cs;
        }
        ncl := 0;
      }
    }
    if ncl == 0 {
      ncl := SearchFat(fs, start);
      if ncl != 1 && ncl != INVALID {
        SearchChosen(t, fs.lastClst, clst, start, ncl);
      }
    } else {
      NextChosen(t, fs.lastClst, clst, ncl);
    }
  }

  /** The end mark is no cluster number, and cluster numbers fit their entries. */
  lemma EntriesFit(fs: FatFs)
    requires fs.Shape()
    ensures fs.nFatEnt <= Mask(fs.fsType, 0xFFFF_FFFF) < INVALID
    ensures forall c | 0 <= c < fs.nFatEnt :: Mask(fs.fsType, c) == c
  {
    hide FatFs.Shape;
    CountInLimit(fs);
    forall c | 0 <= c < fs.nFatEnt
      ensures Mask(fs.fsType, c) == c
    {
    }
  }

  lemma CountInLimit(fs: FatFs)
    requires fs.Shape()
    ensures fs.nFatEnt <= fs.MaxClusters() + 2
  {
  }

  /** Mark the new cluster as an end, and link it from the previous one if there is one. */
  method LinkNew(fs: FatFs, clst: nat, ncl: nat) returns (res: FResult)
    requires fs.Valid() && 2 <= ncl < fs.nFatEnt && (clst == 0 || 2 <= clst < fs.nFatEnt)
    modifies fs`wFlag, fs`winSect, fs.win, fs.disk`sec, fs.disk`script
    ensures FatStep(fs, old(fs.Logical()), old(fs.winSect), |old(fs.disk.script)| == 0)
    ensures res.OK? || res.DiskErr?
    ensures res.OK? ==> fs.Table() == Grown(old(fs.Table()), clst, ncl, Mask(fs.fsType, 0xFFFF_FFFF))
    ensures |old(fs.disk.script)| == 0 ==> res.OK?
  {
    hide FatFs.Table, FatFs.Logical, FatFs.Valid, FatFs.Shape, FatFs.SameOutsideFat, Mask;
    VolumeFacts(fs);
    EntriesFit(fs);
    ghost var l, w, q := fs.Logical(), fs.winSect, |fs.disk.script| == 0;
    res := fs.PutFat(ncl, 0xFFFF_FFFF);
    if res.OK? && clst != 0 {
      ghost var m, v := fs.Logical(), fs.winSect;
      res := fs.PutFat(clst, ncl);
      FatTwice(fs, l, w, q, m, v);
    }
  }

  // ---------------------------------------------------------------- deferred links, exFAT

  /** Changing FAT entries leaves the bitmap alone. */
  lemma SameBits(fs: FatFs, l: seq<Sector>, m: seq<Sector>)
    requires fs.Shape() && |l| == fs.disk.size && fs.SameOutsideFat(l, m)
    ensures |m| == |l| && Bits(fs, l) == Bits(fs, m)
  {
    BitmapOnDisk(fs);
    BitsFrame(fs, l, m);
  }

  /** The object is a chain that ends with lcl. */
  ghost predicate EndsWith(obj: FfObj, lcl: nat)
    requires obj.fs.Valid()
    reads obj`stat, obj`nCont, obj`nFrag, obj`chain, obj.fs`wFlag, obj.fs`winSect, obj.fs.win, obj.fs.disk`sec
  {
    obj.chain != [] && lcl == obj.chain[|obj.chain| - 1] && Holds(obj.fs.Table(), obj.Status(), obj.chain)
  }

  /** On exFAT the use of clusters depends on the bitmap only. */
  lemma UsedByBits(fs: FatFs, l: seq<Sector>)
    requires fs.Valid() && fs.fsType.EXFAT? && |l| == fs.disk.size && Bits(fs, l) == Bits(fs, fs.Logical())
    ensures Used(fs) == Bits(fs, l)
  {
  }

  /** Store a link on exFAT, as one more change of the FAT since the logical disk was l and the window at w. */
  method PutLink(fs: FatFs, c: nat, v: nat, ghost l: seq<Sector>, ghost w: nat, ghost quiet: bool)
    returns (res: FResult)
    requires FatStep(fs, l, w, quiet) && fs.fsType.EXFAT? && 2 <= c < fs.nFatEnt
    modifies fs`wFlag, fs`winSect, fs.win, fs.disk`sec, fs.disk`script
    ensures FatStep(fs, l, w, quiet) && fs.Valid()
    ensures res.OK? || res.DiskErr?
    ensures fs.Table() == if res.OK? then old(fs.Table())[c := v % 0x8000_0000] else old(fs.Table())
    ensures quiet ==> res.OK?
  {
    hide *;
    FatFacts(fs, l, w, quiet);
    ghost var m, u := fs.Logical(), fs.winSect;
    VolumeFacts(fs);
    res := fs.PutFat(c, v);
    FatTwice(fs, l, w, quiet, m, u);
    LinkMask(v);
  }

  lemma LinkMask(v: nat)
    ensures Mask(EXFAT, v) == v % 0x8000_0000
  {
  }

  /** fill_last_frag(): write the links of the last fragment.  What is left to write goes down with what is
      written, so the object is described at every step. */
  method FillLastFrag(obj: FfObj, lcl: nat, term: nat) returns (res: FResult)
    requires obj.fs.Valid() && obj.fs.fsType.EXFAT?
    requires obj.nFrag > 0 ==> obj.nFrag < lcl < obj.fs.nFatEnt
    modifies obj`nFrag, obj.fs`wFlag, obj.fs`winSect, obj.fs.win, obj.fs.disk`sec, obj.fs.disk`script
    ensures FatStep(obj.fs, old(obj.fs.Logical()), old(obj.fs.winSect), |old(obj.fs.disk.script)| == 0)
    ensures res.OK? || res.DiskErr?
    ensures obj.nFrag <= old(obj.nFrag) && (res.OK? ==> obj.nFrag == 0)
    ensures res.OK? && old(obj.nFrag) > 0 ==> obj.fs.Table() == FillLast(old(obj.fs.Table()), lcl, old(obj.nFrag), term)
    ensures old(obj.nFrag) == 0 ==> obj.fs.Table() == old(obj.fs.Table())
    ensures forall c | 0 <= c < obj.fs.nFatEnt && !(lcl - old(obj.nFrag) < c <= lcl) ::
              obj.fs.Table()[c] == old(obj.fs.Table())[c]
    ensures term % 0x8000_0000 != 1 ==> NoneBroken(old(obj.fs.Table()), obj.fs.Table())
    ensures old(EndsWith(obj, lcl)) && term == 0xFFFF_FFFF ==> Holds(obj.fs.Table(), obj.Status(), obj.chain)
    ensures |old(obj.fs.disk.script)| == 0 ==> res.OK?
  {
    hide FatFs.Table, FatFs.Logical, FatFs.Valid, FatFs.Shape, Holds, FatFs.SameOutsideFat, FatStep, FillLast,
      FatFs.WindowAtFat, FatFs.InFat1;
    var fs := obj.fs;
    VolumeFacts(fs);
    ghost var t, ch, l0, w0, q := fs.Table(), obj.chain, fs.Logical(), fs.winSect, |fs.disk.script| == 0;
    ghost var own := EndsWith(obj, lcl) && term == 0xFFFF_FFFF;
    FatStart(fs, q);
    res := OK;
    while obj.nFrag > 0
      invariant FatStep(fs, l0, w0, q) && fs.Valid()
      invariant res.OK? && 0 <= obj.nFrag <= old(obj.nFrag) && (obj.nFrag > 0 ==> obj.nFrag < lcl < fs.nFatEnt)
      invariant old(obj.nFrag) == 0 ==> fs.Table() == t
      invariant old(obj.nFrag) > 0 ==>
                FillLast(fs.Table(), lcl, obj.nFrag, term) == FillLast(t, lcl, old(obj.nFrag), term)
      invariant term % 0x8000_0000 != 1 ==> NoneBroken(t, fs.Table())
      invariant own ==> Holds(fs.Table(), obj.Status(), ch)
      invariant forall c | 0 <= c < fs.nFatEnt && !(lcl - old(obj.nFrag) < c <= lcl) :: fs.Table()[c] == t[c]
      decreases obj.nFrag
    {
      if own {
        FillLastStep(fs.Table(), obj.Status(), ch);
      }
      FillLastTurn(fs.Table(), lcl, obj.nFrag, term);
      res := PutLink(fs, lcl - obj.nFrag + 1, if obj.nFrag > 1 then lcl - obj.nFrag + 2 else term, l0, w0, q);
      if !res.OK? {
        return;
      }
      obj.nFrag := obj.nFrag - 1;
    }
    if lcl < fs.nFatEnt {
      FillLastTurn(fs.Table(), lcl, 0, term);
    }
  }

  /** fill_first_frag(): write the links of the first fragment. */
  method FillFirstFrag(obj: FfObj) returns (res: FResult)
    requires obj.fs.Valid() && obj.fs.fsType.EXFAT?
    requires obj.stat == 3 ==> 2 <= obj.sClust && obj.sClust + obj.nCont < obj.fs.nFatEnt
    modifies obj`stat, obj.fs`wFlag, obj.fs`winSect, obj.fs.win, obj.fs.disk`sec, obj.fs.disk`script
    ensures FatStep(obj.fs, old(obj.fs.Logical()), old(obj.fs.winSect), |old(obj.fs.disk.script)| == 0)
    ensures res.OK? || res.DiskErr?
    ensures old(obj.stat) != 3 ==> res.OK? && obj.fs.Table() == old(obj.fs.Table()) && obj.stat == old(obj.stat)
    ensures old(obj.stat) == 3 && res.OK? ==>
              obj.stat == 0 && obj.fs.Table() == FillFirst(old(obj.fs.Table()), obj.sClust, obj.nCont)
    ensures !res.OK? ==> obj.stat == 3
    ensures forall c | 0 <= c < obj.fs.nFatEnt && !(obj.sClust <= c < obj.sClust + obj.nCont) ::
              obj.fs.Table()[c] == old(obj.fs.Table())[c]
    ensures NoneBroken(old(obj.fs.Table()), obj.fs.Table())
    ensures !res.OK? ==> exists k | 0 <= k <= obj.nCont ::
              obj.fs.Table() == FillFirst(old(obj.fs.Table()), obj.sClust, k)
    ensures |old(obj.fs.disk.script)| == 0 ==> res.OK?
  {
    hide FatFs.Table, FatFs.Logical, FatFs.Valid, FatFs.Shape, FatFs.SameOutsideFat, FatStep, Mask;
    var fs := obj.fs;
    VolumeFacts(fs);
    EntriesFit(fs);
    ghost var t, l0, w0, q := fs.Table(), fs.Logical(), fs.winSect, |fs.disk.script| == 0;
    FatStart(fs, q);
    res := OK;
    if obj.stat == 3 {
      var cl, n := obj.sClust, obj.nCont;
      while n > 0
        invariant FatStep(fs, l0, w0, q) && fs.Valid()
        invariant res.OK? && obj.stat == 3 && 0 <= n <= obj.nCont && cl + n == obj.sClust + obj.nCont
        invariant NoneBroken(t, fs.Table())
        invariant fs.Table() == FillFirst(t, obj.sClust, obj.nCont - n)
        invariant forall c | 0 <= c < fs.nFatEnt && !(obj.sClust <= c < obj.sClust + obj.nCont) :: fs.Table()[c] == t[c]
      {
        res := PutLink(fs, cl, cl + 1, l0, w0, q);
        if !res.OK? {
          return;
        }
        cl, n := cl + 1, n - 1;
      }
      obj.stat := 0;
    }
  }

  // ---------------------------------------------------------------- create_chain()

  /** Taking a free cluster keeps what belongs to other objects and adds the new one. */
  lemma OwnedGrows(fs: FatFs, u: seq<bool>, u': seq<bool>, ch: seq<nat>, ncl: nat)
    requires fs.Shape() && |u| == |u'| == fs.nFatEnt && Owned(fs, u, ch)
    requires 2 <= ncl < |u| && !u[ncl] && u' == u[ncl := true]
    ensures Owned(fs, u', ch + [ncl]) && ncl !in ch
  {
  }

  /** Cluster r, which was free, is the new end of the object's chain. */
  twostate predicate Appended(obj: FfObj, r: nat)
    reads obj`stat, obj`nCont, obj`nFrag, obj`chain, obj.fs`wFlag, obj.fs`winSect, obj.fs.win, obj.fs.disk`sec
  {
    && old(obj.fs.Valid()) && obj.fs.Valid()
    && 2 <= r < obj.fs.nFatEnt && !old(Used(obj.fs))[r]
    && Used(obj.fs) == old(Used(obj.fs))[r := true]
    && obj.chain == old(obj.chain) + [r]
    && obj.Describes(obj.Status(), obj.chain)
  }

  /** Changing the bitmap leaves the FAT alone. */
  lemma SameFat(fs: FatFs, l: seq<Sector>, m: seq<Sector>)
    requires fs.Shape() && |l| == fs.disk.size && SameOutsideBitmap(fs, l, m)
    ensures |m| == |l| && fs.FatArea(l) == fs.FatArea(m)
    ensures fs.fsType.EXFAT? ==> SameData(fs, l, m)
  {
  }

  lemma SetOne(u: seq<bool>, c: nat)
    requires c < |u|
    ensures SetRange(u, c, c + 1, true) == u[c := true]
  {
  }

  /** Take the first free cluster from scl on in the bitmap: 0 when none is free. */
  method TakeFree(fs: FatFs, scl: nat) returns (r: nat)
    requires fs.Valid() && fs.fsType.EXFAT?
    modifies fs`wFlag, fs`winSect, fs.win, fs.disk`sec, fs.disk`script
    ensures MetaStep(fs, old(fs.Logical()), old(fs.winSect), |old(fs.disk.script)| == 0)
    ensures fs.Table() == old(fs.Table())
    ensures r == 0 ==> AllUsed(Used(fs)) && Used(fs) == old(Used(fs))
    ensures r != 0 && r != INVALID ==>
              2 <= r < fs.nFatEnt && !old(Used(fs))[r] && Used(fs) == old(Used(fs))[r := true]
              && Found(old(Used(fs)), if 2 <= scl < fs.nFatEnt then scl - 2 else 0, r)
    ensures |old(fs.disk.script)| == 0 ==> r != INVALID
  {
    hide FatCodes.Table, FatFs.FatArea, FatFs.Logical, Bits, Before;
    fs.SizesFit();
    ghost var l := fs.Logical();
    r := FindBitmap(fs, scl);
    if r != 0 && r != INVALID {
      var res := ChangeBitmap(fs, r, 1, true);
      SameFat(fs, l, fs.Logical());
      SetOne(Bits(fs, l), r);
      if !res.OK? {
        r := INVALID;
      }
    }
  }

  /** Note the link to the new cluster ncl in the object's status, or write it. */
  method NoteLink(obj: FfObj, clst: nat, ncl: nat) returns (res: FResult)
    requires obj.fs.Valid() && obj.fs.fsType.EXFAT? && 2 <= clst < obj.fs.nFatEnt
    requires obj.nFrag < clst && (obj.stat == 2 ==> obj.sClust <= clst)
    modifies obj`stat, obj`nCont, obj`nFrag
    modifies obj.fs`wFlag, obj.fs`winSect, obj.fs.win, obj.fs.disk`sec, obj.fs.disk`script
    ensures FatStep(obj.fs, old(obj.fs.Logical()), old(obj.fs.winSect), |old(obj.fs.disk.script)| == 0)
    ensures res.OK? || res.DiskErr?
    ensures res.OK? ==>
              (obj.fs.Table(), obj.Status()) == Append(old(obj.fs.Table()), old(obj.Status()), obj.sClust, clst, ncl)
    ensures |old(obj.fs.disk.script)| == 0 ==> res.OK?
  {
    hide FatFs.Table, FatFs.Logical, FatFs.Valid, FatFs.Shape, FillLast, Holds, FatStep;
    FatStart(obj.fs, |obj.fs.disk.script| == 0);
    res := OK;
    if obj.stat == 2 && ncl != clst + 1 {
      obj.nCont := clst - obj.sClust;
      obj.stat := 3;
    }
    if obj.stat != 2 {
      if ncl == clst + 1 {
        obj.nFrag := if obj.nFrag != 0 then obj.nFrag + 1 else 2;
      } else {
        if obj.nFrag == 0 {
          obj.nFrag := 1;
        }
        res := FillLastFrag(obj, clst, ncl);
        if res.OK? {
          obj.nFrag := 1;
        }
      }
    }
  }

  /** The exFAT half of create_chain(): take a free cluster in the bitmap, then note the new link or write
      it.  r: 0 none free, INVALID disk error, otherwise the new cluster. */
  method GrowExfat(obj: FfObj, clst: nat, scl: nat) returns (r: nat)
    requires obj.Linked() && obj.fs.fsType.EXFAT?
    requires if clst == 0 then obj.chain == [] else obj.chain != [] && clst == obj.chain[|obj.chain| - 1]
    modifies obj`stat, obj`nCont, obj`nFrag, obj`chain
    modifies obj.fs`wFlag, obj.fs`winSect, obj.fs.win, obj.fs.disk`sec, obj.fs.disk`script
    ensures MetaStep(obj.fs, old(obj.fs.Logical()), old(obj.fs.winSect), |old(obj.fs.disk.script)| == 0)
    ensures r == 0 ==> AllUsed(Used(obj.fs)) && Kept(obj)
    ensures r != 0 && r != INVALID ==>
              Appended(obj, r) && SameElsewhere(old(obj.fs.Table()), obj.fs.Table(), old(obj.chain), r)
              && Found(old(Used(obj.fs)), if 2 <= scl < obj.fs.nFatEnt then scl - 2 else 0, r)
    ensures |old(obj.fs.disk.script)| == 0 ==> r != INVALID
  {
    hide FatFs.Table, FatFs.Logical, FatFs.Valid, FatFs.Shape, FillLast, Holds, FatStep, MetaStep, Owned, SameData,
      Used, Bits, FatFs.SameOutsideFat, AllUsed, SameElsewhere, Append, Found;
    NothingElsewhere(obj.fs.Table(), obj.chain);
    var fs := obj.fs;
    LinkedFacts(obj);
    ghost var t, a, ch, u := fs.Table(), obj.Status(), obj.chain, Used(fs);
    ghost var l, w, q := fs.Logical(), fs.winSect, |fs.disk.script| == 0;
    r := TakeFree(fs, scl);
    MetaFacts(fs, l, w, q);
    if r == 0 || r == INVALID {
      return;
    }
    OwnedGrows(fs, u, Used(fs), ch, r);
    if clst == 0 {
      obj.stat := 2;
      SingleHolds(t, obj.Status(), r);
      assert ch + [r] == [r];
    } else {
      AppendHolds(t, a, ch, r);
      AppendedElsewhere(t, a, ch, r);
      LastFragBelow(t, a, ch);
      ghost var m, v, p := fs.Logical(), fs.winSect, |fs.disk.script| == 0;
      UsedByBits(fs, m);
      var res := NoteLink(obj, clst, r);
      FatFacts(fs, m, v, p);
      FatOnly(fs, m, v, p);
      MetaTwice(fs, l, w, q, m, v, p);
      if !res.OK? {
        return INVALID;
      }
      SameBits(fs, m, fs.Logical());
      UsedByBits(fs, m);
    }
    obj.chain := ch + [r];
  }

  lemma GrownElsewhere(t: seq<nat>, ch: seq<nat>, r: nat, eoc: nat)
    requires 2 <= r < |t| && InTable(|t|, ch) && eoc != 1
    ensures SameElsewhere(t, Grown(t, if ch == [] then 0 else ch[|ch| - 1], r, eoc), ch, r)
  {
  }

  lemma CutElsewhere(t: seq<nat>, ch: seq<nat>, k: nat, eoc: nat)
    requires InTable(|t|, ch) && k < |ch| && eoc != 1
    ensures SameElsewhere(t, Cut(t, ch, k, eoc), ch, 0)
  {
    assert ch[..k] + ch[k..] == ch;
  }

  lemma MarkedElsewhere(t: seq<nat>, ch: seq<nat>, k: nat)
    requires InTable(|t|, ch) && k < |ch|
    ensures SameElsewhere(t, t, ch, 0) && (k > 0 ==> SameElsewhere(t, t[ch[k - 1] := EOC31], ch, 0))
  {
  }

  lemma NothingElsewhere(t: seq<nat>, ch: seq<nat>)
    ensures forall r: nat :: SameElsewhere(t, t, ch, r)
  {
  }

  lemma AppendBreaksNone(t: seq<nat>, a: Alloc, ch: seq<nat>, r: nat)
    requires Holds(t, a, ch) && 2 <= r < |t| <= 0x8000_0000
    ensures a.nFrag < ch[|ch| - 1] && (ch[0] <= ch[|ch| - 1] || a.stat != 2)
    ensures NoneBroken(t, Append(t, a, ch[0], ch[|ch| - 1], r).0)
  {
    LastFragBelow(t, a, ch);
    var last := ch[|ch| - 1];
    var b := Fragmented(a, ch[0], last, r);
    if b.stat != 2 && r != last + 1 {
      forall c | 2 <= c < |t| && FillLast(t, last, if b.nFrag == 0 then 1 else b.nFrag, r)[c] == 1
        ensures t[c] == 1
      {
        FillLastAt(t, last, if b.nFrag == 0 then 1 else b.nFrag, r, c);
      }
    }
  }

  lemma AppendedElsewhere(t: seq<nat>, a: Alloc, ch: seq<nat>, r: nat)
    requires Holds(t, a, ch) && 2 <= r < |t| <= 0x8000_0000
    ensures a.nFrag < ch[|ch| - 1] && (ch[0] <= ch[|ch| - 1] || a.stat != 2)
    ensures SameElsewhere(t, Append(t, a, ch[0], ch[|ch| - 1], r).0, ch, r)
  {
    LastFragBelow(t, a, ch);
    forall c | 0 <= c < |t| && c !in ch && c != r
      ensures Append(t, a, ch[0], ch[|ch| - 1], r).0[c] == t[c]
    {
      AppendElsewhere(t, a, ch, r, c);
    }
    AppendBreaksNone(t, a, ch, r);
    AppendHoldsLength(t, a, ch, r);
  }

  lemma AppendHoldsLength(t: seq<nat>, a: Alloc, ch: seq<nat>, r: nat)
    requires Holds(t, a, ch)
    ensures a.nFrag < ch[|ch| - 1] < |t| && (ch[0] <= ch[|ch| - 1] || a.stat != 2)
    ensures |Append(t, a, ch[0], ch[|ch| - 1], r).0| == |t|
  {
    LastFragBelow(t, a, ch);
  }

  lemma SingleHolds(t: seq<nat>, a: Alloc, c: nat)
    requires 2 <= c < |t| && a.stat == 2 && a.nFrag == 0
    ensures Holds(t, a, [c])
  {
  }

  /** On FAT12/16/32 the table with the new link describes the longer chain. */
  lemma GrownHolds(t: seq<nat>, ch: seq<nat>, r: nat, eoc: nat)
    requires ch == [] || Holds(t, ON_FAT, ch)
    requires 2 <= r < |t| && t[r] == 0 && eoc >= |t|
    ensures ch != [] ==> 2 <= ch[|ch| - 1] < |t|
    ensures var t' := Grown(t, if ch == [] then 0 else ch[|ch| - 1], r, eoc);
      Holds(t', ON_FAT, ch + [r]) && UsedIn(t') == UsedIn(t)[r := true]
  {
    var last := if ch == [] then 0 else ch[|ch| - 1];
    if ch == [] {
      NewChain(t, r, eoc);
      assert ch + [r] == [r];
    } else {
      OnFatIsChain(t, ch);
      ChainExtended(t, ch, r, eoc);
      OnChainInUse(t, ch);
      assert last in ch;
    }
    hide IsChain, Grown, UsedIn, OnFat, Holds;
    OnFatIsChain(Grown(t, last, r, eoc), ch + [r]);
    GrownUse(t, last, r, eoc);
  }

  lemma GrownUse(t: seq<nat>, last: nat, r: nat, eoc: nat)
    requires 2 <= r < |t| && eoc >= |t| && (last == 0 || (2 <= last < |t| && t[last] != 0))
    ensures UsedIn(Grown(t, last, r, eoc)) == UsedIn(t)[r := true]
  {
  }

  /** The FAT12/16/32 half of create_chain(): 0 none free, 1 broken entry, INVALID disk error, otherwise the
      new cluster. */
  method GrowFat(obj: FfObj, clst: nat, scl: nat) returns (r: nat)
    requires obj.Linked() && !obj.fs.fsType.EXFAT? && 1 <= scl < obj.fs.nFatEnt
    requires clst == (if obj.chain == [] then 0 else obj.chain[|obj.chain| - 1])
    requires scl == if clst == 0 then Suggested(obj.fs.lastClst, obj.fs.nFatEnt) else clst
    modifies obj`chain
    modifies obj.fs`wFlag, obj.fs`winSect, obj.fs.win, obj.fs.disk`sec, obj.fs.disk`script
    ensures MetaStep(obj.fs, old(obj.fs.Logical()), old(obj.fs.winSect), |old(obj.fs.disk.script)| == 0)
    ensures r == 0 ==> AllUsed(Used(obj.fs))
    ensures r == 1 ==> exists c | 2 <= c < obj.fs.nFatEnt :: obj.fs.Table()[c] == 1
    ensures r == 0 || r == 1 ==> Kept(obj)
    ensures r != 0 && r != 1 && r != INVALID ==>
              Appended(obj, r) && FirstChoice(false, old(Used(obj.fs)), obj.fs.lastClst, clst, r)
    ensures r != 0 && r != 1 && r != INVALID ==>
              obj.fs.Table() == Grown(old(obj.fs.Table()), clst, r, Mask(obj.fs.fsType, 0xFFFF_FFFF))
    ensures |old(obj.fs.disk.script)| == 0 ==> r != INVALID
  {
    hide FatFs.Table, FatFs.Logical, FatFs.Valid, FatFs.Shape, Holds, FatStep, MetaStep, Owned, SameData, Bits,
      FatFs.SameOutsideFat, FatFs.SameButMirror, AllUsed, Grown, Mask, FirstChoice;
    UsedByTable(obj.fs);
    var fs := obj.fs;
    LinkedFacts(obj);
    ghost var t, ch, u := fs.Table(), obj.chain, Used(fs);
    ghost var l, w, q := fs.Logical(), fs.winSect, |fs.disk.script| == 0;
    EntriesFit(fs);
    r := PickFat(fs, clst, scl);
    ReadOnly(fs, l, w, q);
    MetaFacts(fs, l, w, q);
    if r == 0 || r == 1 || r == INVALID {
      return;
    }
    GrownHolds(t, ch, r, Mask(fs.fsType, 0xFFFF_FFFF));
    ghost var m, v, p := fs.Logical(), fs.winSect, |fs.disk.script| == 0;
    var res := LinkNew(fs, clst, r);
    FatOnly(fs, m, v, p);
    MetaTwice(fs, l, w, q, m, v, p);
    if !res.OK? {
      return INVALID;
    }
    OwnedGrows(fs, u, Used(fs), ch, r);
    obj.chain := ch + [r];
  }

  // ---------------------------------------------------------------- the free count

  /** Number of clusters below n that are not in use. */
  function Unused(u: seq<bool>, n: nat): nat
    requires n <= |u|
  {
    if n <= 2 then 0 else Unused(u, n - 1) + if u[n - 1] then 0 else 1
  }

  lemma {:induction false} UnusedSet(u: seq<bool>, n: nat, c: nat, b: bool)
    requires n <= |u| && 2 <= c < |u|
    ensures Unused(u[c := b], n) + (if c < n && !u[c] then 1 else 0)
         == Unused(u, n) + (if c < n && !b then 1 else 0)
  {
    if n > 2 {
      UnusedSet(u, n - 1, c, b);
    }
  }

  lemma {:induction false} NoneUnused(u: seq<bool>, n: nat)
    requires n <= |u|
    ensures Unused(u, n) == 0 <==> forall c | 2 <= c < n :: u[c]
    ensures Unused(u, n) <= if n <= 2 then 0 else n - 2
  {
    if n > 2 {
      NoneUnused(u, n - 1);
    }
  }

  /** A valid free count is the number of clusters not in use. */
  ghost predicate CountOk(fs: FatFs)
    requires fs.Valid()
    reads fs`freeClst, fs`wFlag, fs`winSect, fs.win, fs.disk`sec
  {
    fs.freeClst <= fs.nFatEnt - 2 ==> fs.freeClst == Unused(Used(fs), fs.nFatEnt)
  }

  /** The free count after a cluster was taken, or none; one that is out of range stays. */
  function Taken(free: nat, n: nat, one: bool): nat {
    if one && 0 < free <= n - 2 then free - 1 else free
  }

  /** The free count after m clusters were freed; one that is out of range stays. */
  function Raised(free: nat, n: nat, m: nat): nat {
    if free >= n - 2 then free else if free + m <= n - 2 then free + m else n - 2
  }

  /** The last part of create_chain(): a new cluster for the end of the chain, and the hints. */
  method Grow(obj: FfObj, clst: nat, scl: nat) returns (r: nat)
    requires obj.Linked() && 1 <= scl < obj.fs.nFatEnt && obj.fs.freeClst != 0
    requires if clst == 0 then obj.chain == [] else obj.chain != [] && clst == obj.chain[|obj.chain| - 1] == scl
    requires clst == 0 ==> scl == Suggested(obj.fs.lastClst, obj.fs.nFatEnt)
    modifies obj`stat, obj`nCont, obj`nFrag, obj`chain, obj.fs`lastClst, obj.fs`freeClst, obj.fs`fsiFlag
    modifies obj.fs`wFlag, obj.fs`winSect, obj.fs.win, obj.fs.disk`sec, obj.fs.disk`script
    ensures MetaStep(obj.fs, old(obj.fs.Logical()), old(obj.fs.winSect), |old(obj.fs.disk.script)| == 0)
    ensures r == 0 ==> Kept(obj) && AllUsed(Used(obj.fs))
    ensures r == 1 ==> Kept(obj) && exists c | 2 <= c < obj.fs.nFatEnt :: obj.fs.Table()[c] == 1
    ensures r != 0 && r != 1 && r != INVALID ==> Appended(obj, r) && obj.fs.lastClst == r && obj.fs.fsiFlag
    ensures r != 0 && r != 1 && r != INVALID ==>
              FirstChoice(obj.fs.fsType.EXFAT?, old(Used(obj.fs)), old(obj.fs.lastClst), clst, r)
    ensures obj.fs.freeClst == Taken(old(obj.fs.freeClst), obj.fs.nFatEnt, r != 0 && r != 1 && r != INVALID)
    ensures r == 0 || r == 1 || r == INVALID ==> unchanged(obj.fs`lastClst, obj.fs`fsiFlag)
    ensures r != 0 && r != 1 && r != INVALID ==>
              SameElsewhere(old(obj.fs.Table()), obj.fs.Table(), old(obj.chain), r)
    ensures r != 0 && r != 1 && r != INVALID && !obj.fs.fsType.EXFAT? ==>
              obj.fs.Table() == Grown(old(obj.fs.Table()), clst, r, Mask(obj.fs.fsType, 0xFFFF_FFFF))
    ensures old(CountOk(obj.fs)) && r != INVALID ==> CountOk(obj.fs)
    ensures |old(obj.fs.disk.script)| == 0 ==> r != INVALID
  {
    hide FatFs.Table, FatFs.Logical, FatFs.Valid, FatFs.Shape, Holds, MetaStep, Owned, SameData, Used, Bits,
      FatFs.SameButMirror, AllUsed, Grown, Mask, SameElsewhere, Found;
    var fs := obj.fs;
    LinkedFacts(obj);
    ghost var u, t, ch := Used(fs), fs.Table(), obj.chain;
    EntriesFit(fs);
    ChainInTable(obj);
    if fs.fsType.EXFAT? {
      r := GrowExfat(obj, clst, scl);
    } else {
      r := GrowFat(obj, clst, scl);
    }
    if r == 0 || r == 1 || r == INVALID {
      return;
    }
    UnusedSet(u, fs.nFatEnt, r, true);
    if !fs.fsType.EXFAT? {
      GrownElsewhere(t, ch, r, Mask(fs.fsType, 0xFFFF_FFFF));
    }
    fs.lastClst := r;
    if fs.freeClst <= fs.nFatEnt - 2 {
      fs.freeClst := fs.freeClst - 1;
    }
    fs.fsiFlag := true;
  }

  /** The first part of create_chain(): the cluster after clst, if there is one; otherwise where the search
      for a free cluster is to start. */
  method LookAhead(obj: FfObj, clst: nat, ghost i: nat) returns (found: bool, r: nat, scl: nat)
    requires obj.Linked()
    requires if clst == 0 then obj.chain == [] else i < |obj.chain| && clst == obj.chain[i] && obj.Followable(i)
    modifies obj.fs`wFlag, obj.fs`winSect, obj.fs.win, obj.fs.disk`sec, obj.fs.disk`script
    ensures MetaStep(obj.fs, old(obj.fs.Logical()), old(obj.fs.winSect), |old(obj.fs.disk.script)| == 0)
    ensures Kept(obj)
    ensures i + 1 < |obj.chain| ==> found
    ensures found ==> 2 <= r && (r == INVALID || (i + 1 < |obj.chain| && r == obj.chain[i + 1]))
    ensures !found ==> 1 <= scl < obj.fs.nFatEnt
    ensures !found ==> scl == if clst == 0 then Suggested(obj.fs.lastClst, obj.fs.nFatEnt) else clst
    ensures |old(obj.fs.disk.script)| == 0 ==> !(found && r == INVALID)
  {
    hide FatFs.Table, FatFs.Logical, FatFs.Valid, FatFs.Shape, Holds, MetaStep, Owned, SameData, Used, Bits,
      FatFs.SameButMirror, AllUsed, View, FfObj.Clen, FfObj.Followable;
    var fs := obj.fs;
    LinkedFacts(obj);
    ghost var l, w, q := fs.Logical(), fs.winSect, |fs.disk.script| == 0;
    MetaStart(fs, q);
    ChainInTable(obj);
    found, r, scl := false, 0, clst;
    if clst == 0 {
      scl := fs.lastClst;
      if scl == 0 || scl >= fs.nFatEnt {
        scl := 1;
      }
    } else {
      obj.GetFatFollows(i);
      var cs := obj.GetFat(clst);
      ReadOnly(fs, l, w, q);
      if cs < 2 {
        return true, INT_ERR, 1;
      }
      if cs == INVALID || cs < fs.nFatEnt {
        return true, cs, 1;
      }
    }
  }

  /** create_chain(): follow the chain from clst, or stretch it when clst is its end, or start it (clst 0).
      Result 0: no free cluster, 1: a broken FAT entry, INVALID: disk error, otherwise the cluster after
      clst.  `i` is the number of clst in the chain. */
  method CreateChain(obj: FfObj, clst: nat, ghost i: nat) returns (r: nat)
    requires obj.Linked()
    requires if clst == 0 then obj.chain == [] else i < |obj.chain| && clst == obj.chain[i] && obj.Followable(i)
    modifies obj`stat, obj`nCont, obj`nFrag, obj`chain, obj.fs`lastClst, obj.fs`freeClst, obj.fs`fsiFlag
    modifies obj.fs`wFlag, obj.fs`winSect, obj.fs.win, obj.fs.disk`sec, obj.fs.disk`script
    ensures MetaStep(obj.fs, old(obj.fs.Logical()), old(obj.fs.winSect), |old(obj.fs.disk.script)| == 0)
    // following
    ensures i + 1 < |old(obj.chain)| ==> (r == INVALID || r == old(obj.chain)[i + 1]) && Kept(obj)
    // stretching or starting
    ensures r == 0 ==> Kept(obj) && (obj.fs.freeClst == 0 || AllUsed(Used(obj.fs)))
    ensures r == 1 ==> Kept(obj) && exists c | 2 <= c < obj.fs.nFatEnt :: obj.fs.Table()[c] == 1
    ensures !(i + 1 < |old(obj.chain)|) && r != 0 && r != 1 && r != INVALID ==>
              Appended(obj, r) && obj.fs.lastClst == r && obj.fs.fsiFlag
              && SameElsewhere(old(obj.fs.Table()), obj.fs.Table(), old(obj.chain), r)
    ensures !(i + 1 < |old(obj.chain)|) && r != 0 && r != 1 && r != INVALID && !obj.fs.fsType.EXFAT? ==>
              obj.fs.Table() == Grown(old(obj.fs.Table()), clst, r, Mask(obj.fs.fsType, 0xFFFF_FFFF))
    ensures !(i + 1 < |old(obj.chain)|) && r != 0 && r != 1 && r != INVALID ==>
              FirstChoice(obj.fs.fsType.EXFAT?, old(Used(obj.fs)), old(obj.fs.lastClst), clst, r)
    // the hints
    ensures var grown := !(i + 1 < |old(obj.chain)|) && r != 0 && r != 1 && r != INVALID;
      && obj.fs.freeClst == Taken(old(obj.fs.freeClst), obj.fs.nFatEnt, grown)
      && (!grown ==> unchanged(obj.fs`lastClst, obj.fs`fsiFlag))
    ensures old(CountOk(obj.fs)) && r != INVALID ==> CountOk(obj.fs)
    ensures old(obj.fs.freeClst) == 0 ==>
              obj.fs.freeClst == 0 && (i + 1 < |old(obj.chain)| || r == 0 || r == INVALID)
    ensures |old(obj.fs.disk.script)| == 0 ==> r != INVALID
  {
    hide FatFs.Table, FatFs.Logical, FatFs.Valid, FatFs.Shape, Holds, MetaStep, Owned, SameData, Used, Bits,
      FatFs.SameButMirror, AllUsed, Grown, Mask, View, FfObj.Clen, FfObj.Followable, SameElsewhere, FirstChoice;
    var fs := obj.fs;
    LinkedFacts(obj);
    ghost var l, w, q := fs.Logical(), fs.winSect, |fs.disk.script| == 0;
    MetaStart(fs, q);
    var found, nxt, scl := LookAhead(obj, clst, i);
    if found {
      return nxt;
    }
    MetaFacts(fs, l, w, q);
    if fs.freeClst == 0 {
      return 0;
    }
    ghost var m, v, p := fs.Logical(), fs.winSect, |fs.disk.script| == 0;
    r := Grow(obj, clst, scl);
    MetaTwice(fs, l, w, q, m, v, p);
  }

  /** Removing clusters raised the free count by m; what is in FSInfo is to be written if it changed. */
  twostate predicate Recounts(fs: FatFs, m: nat)
    reads fs`freeClst, fs`fsiFlag
  {
    && fs.freeClst == Raised(old(fs.freeClst), fs.nFatEnt, m)
    && (fs.fsiFlag <==> old(fs.fsiFlag) || fs.freeClst != old(fs.freeClst))
  }

  // ---------------------------------------------------------------- remove_chain(), FAT12/16/32

  lemma FreeingOne(t: seq<nat>, c: nat)
    requires 2 <= c < |t| && t[c] != 0
    ensures UsedIn(t[c := 0]) == UsedIn(t)[c := false]
    ensures Unused(UsedIn(t[c := 0]), |t|) == Unused(UsedIn(t), |t|) + 1 <= |t| - 2
  {
    UnusedSet(UsedIn(t), |t|, c, false);
    assert UsedIn(t[c := 0]) == UsedIn(t)[c := false];
    NoneUnused(UsedIn(t[c := 0]), |t|);
  }

  /** CountOk on a volume that keeps no bitmap. */
  lemma CountMeans(fs: FatFs)
    requires fs.Valid() && !fs.fsType.EXFAT?
    ensures CountOk(fs) <==> (fs.freeClst <= fs.nFatEnt - 2 ==> fs.freeClst == Unused(UsedIn(fs.Table()), fs.nFatEnt))
  {
  }

  lemma ButOne(t: seq<nat>, t': seq<nat>, c: nat)
    requires |t'| == |t| && forall x | 0 <= x < |t| && x != c :: t'[x] == t[x]
    ensures SameBut(t, t', c)
  {
  }

  lemma ZeroFits(ty: FsType)
    ensures Mask(ty, 0) == 0
  {
  }

  /** Number of free clusters, as the FAT says. */
  ghost function FreeIn(t: seq<nat>): nat {
    Unused(UsedIn(t), |t|)
  }

  /** From the FAT t to t' the free count went up with the number of free clusters, and if it changed FSInfo is to be
      written. */
  ghost predicate Tally(free: nat, due: bool, t: seq<nat>, free': nat, due': bool, t': seq<nat>) {
    && FreeIn(t) <= FreeIn(t') && free' == Raised(free, |t|, FreeIn(t') - FreeIn(t))
    && (due' <==> due || free' != free)
  }

  lemma TallyNone(free: nat, due: bool, t: seq<nat>)
    ensures Tally(free, due, t, free, due, t)
  {
  }

  lemma TallyOne(free: nat, due: bool, t: seq<nat>, c: nat)
    requires 2 <= c < |t| && t[c] != 0
    ensures free < |t| - 2 ==> Tally(free, due, t, free + 1, true, t[c := 0])
    ensures free >= |t| - 2 ==> Tally(free, due, t, free, due, t[c := 0])
  {
    FreeingOne(t, c);
  }

  lemma TallyTwice(free: nat, due: bool, t: seq<nat>, free1: nat, due1: bool, t1: seq<nat>, free2: nat, due2: bool,
    t2: seq<nat>)
    requires 2 <= |t| == |t1| && Tally(free, due, t, free1, due1, t1) && Tally(free1, due1, t1, free2, due2, t2)
    ensures Tally(free, due, t, free2, due2, t2)
  {
    hide FreeIn;
  }

  /** One turn of the loop of remove_chain() on FAT12/16/32: look at cluster c and free it. */
  method FreeCluster(fs: FatFs, c: nat) returns (res: FResult, nxt: nat)
    requires fs.Valid() && !fs.fsType.EXFAT? && 2 <= c < fs.nFatEnt
    modifies fs`freeClst, fs`fsiFlag, fs`wFlag, fs`winSect, fs.win, fs.disk`sec, fs.disk`script
    ensures fs.Valid() && fs.SameOutsideFat(old(fs.Logical()), fs.Logical())
    ensures fs.WindowAtFat(old(fs.winSect))
    ensures res.OK? || res.IntErr? || res.DiskErr?
    ensures !res.DiskErr? ==> nxt == old(fs.Table())[c]
    ensures res.IntErr? ==> nxt == 1
    ensures res.IntErr? || (res.OK? && nxt == 0) ==> fs.Table() == old(fs.Table())
    ensures res.OK? && nxt != 0 ==> 2 <= nxt && fs.Table() == old(fs.Table())[c := 0]
    ensures SameBut(old(fs.Table()), fs.Table(), c)
    ensures !res.DiskErr? ==>
              Tally(old(fs.freeClst), old(fs.fsiFlag), old(fs.Table()), fs.freeClst, fs.fsiFlag, fs.Table())
    ensures old(CountOk(fs)) && !res.DiskErr? ==> CountOk(fs)
    ensures |old(fs.disk.script)| == 0 ==> |fs.disk.script| == 0 && !res.DiskErr?
  {
    hide *;
    ghost var l, w, q, t := fs.Logical(), fs.winSect, |fs.disk.script| == 0, fs.Table();
    VolumeFacts(fs);
    CountMeans(fs);
    res := OK;
    nxt := fs.GetFat(c);
    FatRead(fs, l, w, q);
    FatFacts(fs, l, w, q);
    CountMeans(fs);
    ButOne(t, t, c);
    ghost var f, b := fs.freeClst, fs.fsiFlag;
    TallyNone(f, b, t);
    if nxt == 0 {
      return;
    }
    if nxt == 1 {
      return IntErr, nxt;
    }
    if nxt == INVALID {
      return DiskErr, nxt;
    }
    FreeingOne(t, c);
    TallyOne(f, b, t, c);
    ghost var m, v := fs.Logical(), fs.winSect;
    res := fs.PutFat(c, 0);
    FatTwice(fs, l, w, q, m, v);
    FatFacts(fs, l, w, q);
    ButOne(t, fs.Table(), c);
    if !res.OK? {
      return;
    }
    ZeroFits(fs.fsType);
    if fs.freeClst < fs.nFatEnt - 2 {
      fs.freeClst := fs.freeClst + 1;
      fs.fsiFlag := true;
    }
    CountMeans(fs);
  }

  /** The loop of remove_chain() on FAT12/16/32: it ends on every FAT, and does what Remove says. */
  method RemoveFat(fs: FatFs, clst: nat) returns (res: FResult)
    requires fs.Valid() && !fs.fsType.EXFAT? && 2 <= clst < fs.nFatEnt
    modifies fs`freeClst, fs`fsiFlag, fs`wFlag, fs`winSect, fs.win, fs.disk`sec, fs.disk`script
    ensures fs.Valid() && fs.SameOutsideFat(old(fs.Logical()), fs.Logical())
    ensures fs.WindowAtFat(old(fs.winSect))
    ensures res.OK? ==> Remove(old(fs.Table()), clst) == Removed(fs.Table())
    ensures res.IntErr? ==> Remove(old(fs.Table()), clst) == Broken(fs.Table())
    ensures !res.DiskErr? ==> Swept(old(fs.Table()), clst, fs.Table())
    ensures Unreached(old(fs.Table()), clst, fs.Table())
    ensures res.OK? || res.IntErr? || res.DiskErr?
    ensures !res.DiskErr? ==> (res.IntErr? <==> ReachesBad(old(fs.Table()), clst))
    ensures !res.DiskErr? ==>
              Tally(old(fs.freeClst), old(fs.fsiFlag), old(fs.Table()), fs.freeClst, fs.fsiFlag, fs.Table())
    ensures old(CountOk(fs)) && !res.DiskErr? ==> CountOk(fs)
    ensures |old(fs.disk.script)| == 0 ==> |fs.disk.script| == 0 && !res.DiskErr?
  {
    ghost var t := fs.Table();
    hide FatFs.Table, FatFs.Logical, FatFs.Valid, FatFs.Shape, CountOk, Swept, ReachesBad, Trails, Unreached, SameBut,
      Tally;
    ghost var f, b := fs.freeClst, fs.fsiFlag;
    TallyNone(f, b, t);
    RemoveSweeps(t, clst);
    TrailsSelf(t, clst);
    var c := clst;
    while true
      invariant fs.Valid() && fs.SameOutsideFat(old(fs.Logical()), fs.Logical())
      invariant fs.WindowAtFat(old(fs.winSect))
      invariant 2 <= c < fs.nFatEnt && Remove(fs.Table(), c) == Remove(t, clst)
      invariant Trails(t, clst, fs.Table(), c)
      invariant Tally(f, b, t, fs.freeClst, fs.fsiFlag, fs.Table())
      invariant old(CountOk(fs)) ==> CountOk(fs)
      invariant |old(fs.disk.script)| == 0 ==> |fs.disk.script| == 0
      decreases fs.nFatEnt - FreeCount(fs.Table(), fs.nFatEnt)
    {
      ghost var t1, f1, b1 := fs.Table(), fs.freeClst, fs.fsiFlag;
      FreeCountSet(t1, fs.nFatEnt, c, 0);
      var nxt;
      res, nxt := FreeCluster(fs, c);
      TrailsOn(t, clst, t1, c, fs.Table());
      if !res.DiskErr? {
        TallyTwice(f, b, t, f1, b1, t1, fs.freeClst, fs.fsiFlag, fs.Table());
      }
      if !res.OK? || nxt == 0 || nxt >= fs.nFatEnt {
        return;
      }
      c := nxt;
    }
  }

  // ---------------------------------------------------------------- remove_chain(), exFAT

  /** u with the clusters of ch no longer in use. */
  ghost function Freed(u: seq<bool>, ch: seq<nat>): (r: seq<bool>)
    ensures |r| == |u|
  {
    seq(|u|, c requires 0 <= c < |u| => u[c] && c !in ch)
  }

  lemma FreedNone(u: seq<bool>, ch: seq<nat>)
    requires ch == []
    ensures Freed(u, ch) == u
  {
  }

  /** u with the first m clusters of ch no longer in use. */
  ghost function FreedTo(u: seq<bool>, ch: seq<nat>, m: nat): (r: seq<bool>)
    requires m <= |ch|
    ensures |r| == |u|
  {
    Freed(u, ch[..m])
  }

  lemma FreedEnds(u: seq<bool>, ch: seq<nat>)
    ensures FreedTo(u, ch, 0) == u && FreedTo(u, ch, |ch|) == Freed(u, ch)
  {
    assert ch[..|ch|] == ch;
  }

  /** Of the clusters in use, none but those of ch were given back. */
  ghost predicate OnlyFreed(u: seq<bool>, ch: seq<nat>, u': seq<bool>) {
    |u'| == |u| && (forall c | 0 <= c < |u| && u[c] && c !in ch :: u'[c]) && forall c | 0 <= c < |u| && u'[c] :: u[c]
  }

  lemma FreedOnly(u: seq<bool>, ch: seq<nat>, m: nat)
    requires m <= |ch|
    ensures OnlyFreed(u, ch, FreedTo(u, ch, m)) && OnlyFreed(u, ch, Freed(u, ch))
  {
  }

  ghost predicate AllIn(u: seq<bool>, ch: seq<nat>) {
    forall i | 0 <= i < |ch| :: 2 <= ch[i] < |u| && u[ch[i]]
  }

  lemma {:induction false} FreedCount(u: seq<bool>, ch: seq<nat>)
    requires Distinct(ch) && AllIn(u, ch)
    ensures Unused(Freed(u, ch), |u|) == Unused(u, |u|) + |ch|
    ensures Unused(u, |u|) + |ch| <= if |u| <= 2 then 0 else |u| - 2
  {
    NoneUnused(Freed(u, ch), |u|);
    if |ch| == 0 {
      assert Freed(u, ch) == u;
    } else {
      var c, h := ch[|ch| - 1], ch[..|ch| - 1];
      FreedCount(u, h);
      assert ch == h + [c];
      assert Freed(u, ch) == Freed(u, h)[c := false];
      UnusedSet(Freed(u, h), |u|, c, false);
    }
  }

  /** Clearing the bits of a run of clusters, after those before it. */
  lemma FreedRun(u: seq<bool>, ch: seq<nat>, s: nat, j: nat)
    requires Distinct(ch) && AllIn(u, ch) && s <= j < |ch| && Run(ch, s, j + 1)
    ensures SetRange(FreedTo(u, ch, s), ch[s], ch[j] + 1, false) == FreedTo(u, ch, j + 1)
    ensures forall c | ch[s] <= c < ch[j] + 1 :: c < |u| && FreedTo(u, ch, s)[c]
  {
    assert ch[..j + 1] == ch[..s] + ch[s..j + 1];
    forall c | ch[s] <= c < ch[j] + 1
      ensures c in ch[..j + 1] && c < |u| && u[c] && c !in ch[..s]
    {
      InRun(ch, s, j + 1, c);
      assert ch[..j + 1][s + (c - ch[s])] == c;
    }
    forall c | c in ch[..j + 1] && c !in ch[..s]
      ensures ch[s] <= c < ch[j] + 1
    {
      var i :| 0 <= i < j + 1 - s && ch[s..j + 1][i] == c;
    }
  }

  /** One turn of the loop of remove_chain() on exFAT: the next cluster is part of the current run, or the
      run ends and its bits are cleared. */
  method FreeRun(obj: FfObj, scl: nat, ecl: nat, nxt: nat, ghost u: seq<bool>, ghost rest: seq<nat>, ghost s: nat,
    ghost j: nat)
    returns (res: FResult, scl': nat, ecl': nat)
    requires obj.fs.Valid() && obj.fs.fsType.EXFAT? && |u| == obj.fs.nFatEnt
    requires Distinct(rest) && AllIn(u, rest) && s <= j < |rest| && Run(rest, s, j + 1)
    requires scl == rest[s] && ecl == rest[j] && Used(obj.fs) == FreedTo(u, rest, s)
    modifies obj.fs`wFlag, obj.fs`winSect, obj.fs.win, obj.fs.disk`sec, obj.fs.disk`script
    ensures obj.fs.Valid() && obj.fs.Table() == old(obj.fs.Table())
    ensures SameData(obj.fs, old(obj.fs.Logical()), obj.fs.Logical())
    ensures WindowAtBitmap(obj.fs, old(obj.fs.winSect))
    ensures res.OK? || res.DiskErr?
    ensures ecl' == nxt && scl' == if nxt == ecl + 1 then scl else nxt
    ensures res.OK? ==> Used(obj.fs) == FreedTo(u, rest, if nxt == ecl + 1 then s else j + 1)
    ensures |old(obj.fs.disk.script)| == 0 ==> |obj.fs.disk.script| == 0 && res.OK?
  {
    var fs := obj.fs;
    res, scl', ecl' := OK, scl, nxt;
    if ecl + 1 != nxt {
      scl' := nxt;
      FreedRun(u, rest, s, j);
      hide FatCodes.Table, FatFs.FatArea, FatFs.Logical, Bits;
      ghost var l := fs.Logical();
      res := ChangeBitmap(fs, scl, ecl - scl + 1, false);
      SameFat(fs, l, fs.Logical());
    }
  }

  /** The free count while the first m of the clusters being removed are already counted. */
  ghost predicate Counted(fs: FatFs, u: seq<bool>, m: nat)
    requires |u| == fs.nFatEnt
    reads fs`freeClst
  {
    fs.freeClst <= fs.nFatEnt - 2 ==> fs.freeClst == Unused(u, |u|) + m
  }

  /** While the last cluster is not freed, not all are. */
  lemma LastNotFreed(u: seq<bool>, rest: seq<nat>, s: nat)
    requires Distinct(rest) && AllIn(u, rest) && s < |rest|
    ensures FreedTo(u, rest, s) != Freed(u, rest)
  {
    var c := rest[|rest| - 1];
    assert u[c] && c in rest && c !in rest[..s];
    assert FreedTo(u, rest, s)[c] != Freed(u, rest)[c];
  }

  /** One turn of the loop of remove_chain() on exFAT. */
  method FreeTurn(obj: FfObj, scl: nat, ecl: nat, ghost u: seq<bool>, ghost rest: seq<nat>, ghost s: nat, ghost j: nat)
    returns (res: FResult, nxt: nat, scl': nat, ecl': nat)
    requires obj.fs.Valid() && obj.fs.fsType.EXFAT? && |u| == obj.fs.nFatEnt
    requires Distinct(rest) && AllIn(u, rest) && s <= j < |rest| && Run(rest, s, j + 1)
    requires scl == rest[s] && ecl == rest[j] && Used(obj.fs) == FreedTo(u, rest, s)
    requires Unused(u, |u|) + |rest| <= |u| - 2
    requires View(obj.fs.Table(), obj.Status(), obj.sClust, obj.Clen(), ecl) >= 2
    modifies obj.fs`freeClst, obj.fs`fsiFlag
    modifies obj.fs`wFlag, obj.fs`winSect, obj.fs.win, obj.fs.disk`sec, obj.fs.disk`script
    ensures MetaStep(obj.fs, old(obj.fs.Logical()), old(obj.fs.winSect), |old(obj.fs.disk.script)| == 0)
    ensures obj.fs.Table() == old(obj.fs.Table())
    ensures res.OK? || res.DiskErr?
    ensures res.OK? ==> nxt == View(obj.fs.Table(), obj.Status(), obj.sClust, obj.Clen(), ecl)
    ensures res.OK? ==> ecl' == nxt && scl' == if nxt == ecl + 1 then scl else nxt
    ensures res.OK? ==> Used(obj.fs) == FreedTo(u, rest, if nxt == ecl + 1 then s else j + 1)
    ensures res.OK? ==> Recounts(obj.fs, 1)
    ensures res.OK? && old(Counted(obj.fs, u, j)) ==> Counted(obj.fs, u, j + 1)
    ensures |old(obj.fs.disk.script)| == 0 ==> res.OK?
  {
    var fs := obj.fs;
    ghost var l, w, q := fs.Logical(), fs.winSect, |fs.disk.script| == 0;
    fs.SizesFit();
    hide FatFs.Table, FatFs.Logical, Bits, View, FfObj.Clen, SameData, Freed, FreedTo, FatFs.SameButMirror, Run,
      Distinct, AllIn, FatFs.Shape, Unused, Holds;
    nxt := obj.GetFat(ecl);
    ghost var m, v := fs.Logical(), fs.winSect;
    MirrorKeepsData(fs, l, m);
    if nxt == INVALID {
      return DiskErr, nxt, scl, ecl;
    }
    if fs.freeClst < fs.nFatEnt - 2 {
      fs.freeClst := fs.freeClst + 1;
      fs.fsiFlag := true;
    }
    res, scl', ecl' := FreeRun(obj, scl, ecl, nxt, u, rest, s, j);
    MetaTwice(fs, l, w, q, m, v, |fs.disk.script| == 0);
  }

  /** The loop of remove_chain() on exFAT: the bits of the clusters `rest` are cleared, run by run.  The last
      run is forgotten when the end mark happens to be the number after the last cluster. */
  method RemoveExfat(obj: FfObj, clst0: nat, ghost rest: seq<nat>) returns (res: FResult)
    requires obj.fs.Valid() && obj.fs.fsType.EXFAT?
    requires rest != [] && clst0 == rest[0] && Distinct(rest) && AllIn(Used(obj.fs), rest)
    requires Chained(obj.fs.Table(), obj.Status(), obj.sClust, obj.Clen(), rest)
    modifies obj.fs`freeClst, obj.fs`fsiFlag
    modifies obj.fs`wFlag, obj.fs`winSect, obj.fs.win, obj.fs.disk`sec, obj.fs.disk`script
    ensures MetaStep(obj.fs, old(obj.fs.Logical()), old(obj.fs.winSect), |old(obj.fs.disk.script)| == 0)
    ensures obj.fs.Table() == old(obj.fs.Table())
    ensures res.OK? || res.DiskErr?
    ensures res.OK? ==> exists m | 0 <= m <= |rest| :: Used(obj.fs) == FreedTo(old(Used(obj.fs)), rest, m)
    ensures res.OK? ==> (Used(obj.fs) == Freed(old(Used(obj.fs)), rest) <==>
              View(obj.fs.Table(), obj.Status(), obj.sClust, obj.Clen(), rest[|rest| - 1]) != rest[|rest| - 1] + 1)
    ensures res.OK? ==> Recounts(obj.fs, |rest|)
    ensures old(CountOk(obj.fs)) && Used(obj.fs) == Freed(old(Used(obj.fs)), rest) && res.OK? ==> CountOk(obj.fs)
    ensures |old(obj.fs.disk.script)| == 0 ==> res.OK?
  {
    hide FatFs.Table, FatFs.Logical, FatFs.Valid, FatFs.Shape, Bits, View, Freed, FreedTo, SameData, Distinct, AllIn,
      Unused, Used, Run, MetaStep, Chained, FfObj.Clen, FfObj.Status;
    var fs := obj.fs;
    VolumeFacts(fs);
    ghost var u, l0, w0, q := Used(fs), fs.Logical(), fs.winSect, |fs.disk.script| == 0;
    ghost var t, a, sc, cl := fs.Table(), obj.Status(), obj.sClust, obj.Clen();
    FreedCount(u, rest);
    var scl, ecl := clst0, clst0;
    ghost var s: nat, j: nat := 0, 0;
    FreedEnds(u, rest);
    RunOfOne(rest, 0);
    MetaStart(fs, q);
    while true
      invariant MetaStep(fs, l0, w0, q) && fs.Valid()
      invariant fs.Table() == t && obj.Status() == a && obj.sClust == sc && obj.Clen() == cl
      invariant s <= j < |rest| && Run(rest, s, j + 1) && ecl == rest[j] && scl == rest[s]
      invariant Used(fs) == FreedTo(u, rest, s)
      invariant Recounts(fs, j)
      invariant old(CountOk(fs)) ==> Counted(fs, u, j)
      decreases |rest| - j
    {
      var nxt, at := 0, ecl;
      ChainedAt(t, a, sc, cl, rest, j);
      LastNotFreed(u, rest, s);
      MetaFacts(fs, l0, w0, q);
      ghost var m, v, p := fs.Logical(), fs.winSect, |fs.disk.script| == 0;
      res, nxt, scl, ecl := FreeTurn(obj, scl, ecl, u, rest, s, j);
      MetaTwice(fs, l0, w0, q, m, v, p);
      if !res.OK? {
        return;
      }
      if nxt >= fs.nFatEnt {
        return;
      }
      RunGrows(rest, s, j);
      if at + 1 != nxt {
        s := j + 1;
      }
      j := j + 1;
    }
  }

  // ---------------------------------------------------------------- remove_chain()

  /** All clusters of the object from number k on can be followed. */
  ghost predicate Removable(obj: FfObj, k: nat)
    requires 1 <= obj.fs.cSize
    reads obj`stat, obj`nFrag, obj`chain, obj`objSize
  {
    && k < |obj.chain|
    && (obj.fs.fsType.EXFAT? ==>
          obj.nFrag == 0 && 0 <= obj.Clen() && (obj.stat == 2 ==> obj.Clen() + 1 == |obj.chain|))
  }

  lemma RestChained(obj: FfObj, k: nat)
    requires obj.Linked() && obj.fs.fsType.EXFAT? && Removable(obj, k)
    ensures Chained(obj.fs.Table(), obj.Status(), obj.sClust, obj.Clen(), obj.chain[k..])
  {
    var rest := obj.chain[k..];
    forall j | 0 <= j < |rest|
      ensures Follows(obj.fs.nFatEnt, rest, j, View(obj.fs.Table(), obj.Status(), obj.sClust, obj.Clen(), rest[j]))
    {
      obj.GetFatFollows(k + j);
    }
  }

  /** Marking the new end leaves the links beyond it as they were. */
  lemma RestStillChained(t: seq<nat>, a: Alloc, ch: seq<nat>, k: nat, clen: int, v: nat)
    requires Holds(t, a, ch) && 0 < k < |ch| && Chained(t, a, ch[0], clen, ch[k..])
    ensures Chained(t[ch[k - 1] := v], a, ch[0], clen, ch[k..])
  {
    var rest, t' := ch[k..], t[ch[k - 1] := v];
    forall j | 0 <= j < |rest|
      ensures Follows(|t'|, rest, j, View(t', a, ch[0], clen, rest[j]))
    {
      ViewBeyondCut(t, a, ch, k, k + j, clen, v);
      ChainedAt(t, a, ch[0], clen, rest, j);
    }
  }

  /** Giving up clusters of the chain keeps what belongs to other objects. */
  lemma OwnedShrinks(fs: FatFs, u: seq<bool>, ch: seq<nat>, k: nat, m: nat)
    requires fs.Shape() && |u| == fs.nFatEnt && Owned(fs, u, ch) && Distinct(ch) && k <= |ch| && m <= |ch| - k
    ensures Owned(fs, FreedTo(u, ch[k..], m), ch[..k])
  {
    SplitDistinct(ch, k);
    var rest := ch[k..];
    assert forall c | c in rest[..m] :: c in rest;
    assert forall c | c in rest :: c in ch;
  }

  /** The FAT after remove_chain() on FAT12/16/32. */
  lemma CutDescribes(fs: FatFs, t: seq<nat>, ch: seq<nat>, k: nat, eoc: nat)
    requires fs.Shape() && |t| == fs.nFatEnt && k < |ch| && eoc >= |t|
    requires Holds(t, ON_FAT, ch) && Owned(fs, UsedIn(t), ch)
    ensures var t1 := if k == 0 then t else t[ch[k - 1] := eoc];
      Remove(t1, ch[k]) == Removed(Cut(t, ch, k, eoc))
    ensures UsedIn(Cut(t, ch, k, eoc)) == Freed(UsedIn(t), ch[k..])
    ensures k > 0 ==> Holds(Cut(t, ch, k, eoc), ON_FAT, ch[..k])
    ensures Owned(fs, UsedIn(Cut(t, ch, k, eoc)), ch[..k])
  {
    OnFatIsChain(t, ch);
    CutChain(t, ch, k, eoc);
    OnFatIsChain(Cut(t, ch, k, eoc), ch[..k]);
    OwnedShrinks(fs, UsedIn(t), ch, k, |ch| - k);
    FreedEnds(UsedIn(t), ch[k..]);
    OnChainInUse(t, ch);
    SplitDistinct(ch, k);
    if k > 0 {
      assert ch[k - 1] in ch;
    }
    assert UsedIn(Cut(t, ch, k, eoc)) == Freed(UsedIn(t), ch[k..]);
  }

  /** What remove_chain() leaves: the first k clusters, well described. */
  twostate predicate CutTo(obj: FfObj, k: nat)
    reads obj`stat, obj`nCont, obj`nFrag, obj`chain, obj.fs`wFlag, obj.fs`winSect, obj.fs.win, obj.fs.disk`sec
  {
    && old(obj.fs.Valid()) && obj.fs.Valid() && k <= |old(obj.chain)|
    && obj.chain == old(obj.chain)[..k]
    && obj.Describes(obj.Status(), obj.chain)
    && obj.Status().nFrag == 0 && (obj.chain == [] ==> obj.Status().stat != 3)
  }

  /** Mark the cluster before those being removed as the end of its chain (0: there is none). */
  method MarkEnd(fs: FatFs, pclst: nat) returns (res: FResult)
    requires fs.Valid() && (pclst == 0 || (2 <= pclst < fs.nFatEnt && Used(fs)[pclst]))
    modifies fs`wFlag, fs`winSect, fs.win, fs.disk`sec, fs.disk`script
    ensures MetaStep(fs, old(fs.Logical()), old(fs.winSect), |old(fs.disk.script)| == 0)
    ensures res.OK? || res.DiskErr?
    ensures res.OK? ==> Used(fs) == old(Used(fs)) && (old(CountOk(fs)) ==> CountOk(fs))
    ensures res.OK? && pclst == 0 ==> fs.Table() == old(fs.Table())
    ensures res.OK? && pclst != 0 ==> fs.Table() == old(fs.Table())[pclst := Mask(fs.fsType, 0xFFFF_FFFF)]
    ensures |old(fs.disk.script)| == 0 ==> res.OK?
  {
    ghost var t, u, l, w, q := fs.Table(), Used(fs), fs.Logical(), fs.winSect, |fs.disk.script| == 0;
    EntriesFit(fs);
    hide FatFs.Table, FatFs.Logical, Mask, SameData, FatFs.SameOutsideFat, Bits;
    if pclst == 0 {
      res := OK;
      MetaStart(fs, q);
    } else {
      res := fs.PutFat(pclst, 0xFFFF_FFFF);
      FatOnly(fs, l, w, q);
      SameBits(fs, l, fs.Logical());
      assert UsedIn(t[pclst := Mask(fs.fsType, 0xFFFF_FFFF)]) == UsedIn(t) || fs.fsType.EXFAT?;
    }
  }

  lemma UsedByTable(fs: FatFs)
    requires fs.Valid()
    ensures !fs.fsType.EXFAT? ==> Used(fs) == UsedIn(fs.Table())
  {
  }

  lemma CutFrees(t: seq<nat>, ch: seq<nat>, k: nat, eoc: nat)
    requires k < |ch| && InTable(|t|, ch) && Distinct(ch[k..]) && AllIn(UsedIn(t), ch[k..]) && eoc != 0
    requires k > 0 ==> UsedIn(t)[ch[k - 1]]
    requires UsedIn(Cut(t, ch, k, eoc)) == Freed(UsedIn(t), ch[k..])
    ensures var t1 := if k == 0 then t else t[ch[k - 1] := eoc]; FreeIn(Cut(t, ch, k, eoc)) == FreeIn(t1) + (|ch| - k)
  {
    hide Cut, Freed;
    FreedCount(UsedIn(t), ch[k..]);
    if k > 0 {
      assert UsedIn(t[ch[k - 1] := eoc]) == UsedIn(t);
    }
  }

  /** remove_chain() on FAT12/16/32. */
  method RemoveChainFat(obj: FfObj, clst: nat, pclst: nat, ghost k: nat) returns (res: FResult)
    requires obj.Linked() && !obj.fs.fsType.EXFAT? && k < |obj.chain|
    requires clst == obj.chain[k] && pclst == if k == 0 then 0 else obj.chain[k - 1]
    modifies obj`chain, obj.fs`freeClst, obj.fs`fsiFlag
    modifies obj.fs`wFlag, obj.fs`winSect, obj.fs.win, obj.fs.disk`sec, obj.fs.disk`script
    ensures MetaStep(obj.fs, old(obj.fs.Logical()), old(obj.fs.winSect), |old(obj.fs.disk.script)| == 0)
    ensures res.OK? || res.DiskErr?
    ensures res.OK? ==> CutTo(obj, k)
    ensures res.OK? ==>
              obj.fs.Table() == Cut(old(obj.fs.Table()), old(obj.chain), k, Mask(obj.fs.fsType, 0xFFFF_FFFF))
    ensures res.OK? ==> SameElsewhere(old(obj.fs.Table()), obj.fs.Table(), old(obj.chain), 0)
    ensures res.OK? ==> Used(obj.fs) == Freed(old(Used(obj.fs)), old(obj.chain)[k..])
    ensures res.OK? ==> Recounts(obj.fs, |old(obj.chain)| - k)
    ensures res.OK? && old(CountOk(obj.fs)) ==> CountOk(obj.fs)
    ensures |old(obj.fs.disk.script)| == 0 ==> res.OK?
  {
    hide FatFs.Table, FatFs.Logical, FatFs.Valid, FatFs.Shape, Holds, Mask, SameData, FatFs.SameOutsideFat, Owned,
      Freed, Cut, MetaStep, Used, UsedIn, FfObj.Linked, AllIn, CountOk, SameElsewhere, Swept, Unreached, ReachesBad,
      Remove, InTable, Distinct, FatFs.InFat1, FatFs.WindowAtFat, WindowAtMeta, InBitmap,
      FreeIn, Raised;
    var fs := obj.fs;
    LinkedFacts(obj);
    EntriesFit(fs);
    RestOwned(obj, k);
    ChainInTable(obj);
    UsedByTable(fs);
    ghost var t, ch, l, w, q := fs.Table(), obj.chain, fs.Logical(), fs.winSect, |fs.disk.script| == 0;
    CutDescribes(fs, t, ch, k, Mask(fs.fsType, 0xFFFF_FFFF));
    CutElsewhere(t, ch, k, Mask(fs.fsType, 0xFFFF_FFFF));
    CutFrees(t, ch, k, Mask(fs.fsType, 0xFFFF_FFFF));
    res := MarkEnd(fs, pclst);
    if res.OK? {
      MetaFacts(fs, l, w, q);
      ghost var m, v, p := fs.Logical(), fs.winSect, |fs.disk.script| == 0;
      res := RemoveFat(fs, clst);
      FatOnly(fs, m, v, p);
      UsedByTable(fs);
      MetaTwice(fs, l, w, q, m, v, p);
      obj.chain := ch[..k];
    }
  }

  /** Whether the status still says how the clusters h, which remain after a cut, are described. */
  ghost predicate CutStatus(t: seq<nat>, a: Alloc, sclust: nat, h: seq<nat>) {
    && h != [] && sclust == h[0] && a.nFrag == 0 && (a.stat == 0 || a.stat == 2 || a.stat == 3)
    && (Run(h, 0, |h|) ==> Holds(t, a.(stat := 2), h))
    && (a.stat == 2 ==> Run(h, 0, |h|))
    && (a.stat == 0 ==> Holds(t, a, h))
    && (a.stat == 3 ==>
          if sclust <= h[|h| - 1] <= sclust + a.nCont then Run(h, 0, |h|) else Holds(t, a, h) && !Run(h, 0, |h|))
  }

  lemma CutStatusHolds(t: seq<nat>, a: Alloc, ch: seq<nat>, k: nat)
    requires Holds(t, a, ch) && a.nFrag == 0 && 0 < k < |ch| && |t| <= EOC31
    ensures CutStatus(if a.stat == 2 then t else t[ch[k - 1] := EOC31], a, ch[0], ch[..k])
  {
    CutHolds(t, a, ch, k);
    var h, t' := ch[..k], if a.stat == 2 then t else t[ch[k - 1] := EOC31];
    if a.stat == 3 {
      InFirstFragment(t, a, ch, k - 1);
    }
    if Run(h, 0, k) {
      assert Holds(t', a.(stat := 2), h);
    }
  }

  /** The end of remove_chain() on exFAT: what remains may have become contiguous again. */
  method RefreshStatus(obj: FfObj, pclst: nat, ghost h: seq<nat>) returns (res: FResult)
    requires obj.fs.Valid() && obj.fs.fsType.EXFAT? && obj.objSize > 0
    requires CutStatus(obj.fs.Table(), obj.Status(), obj.sClust, h) && pclst == h[|h| - 1]
    modifies obj`stat, obj.fs`wFlag, obj.fs`winSect, obj.fs.win, obj.fs.disk`sec, obj.fs.disk`script
    ensures MetaStep(obj.fs, old(obj.fs.Logical()), old(obj.fs.winSect), |old(obj.fs.disk.script)| == 0)
    ensures obj.fs.Table() == old(obj.fs.Table()) && Used(obj.fs) == old(Used(obj.fs))
    ensures old(CountOk(obj.fs)) ==> CountOk(obj.fs)
    ensures res.OK? || res.DiskErr?
    ensures res.OK? ==> Holds(obj.fs.Table(), obj.Status(), h) && (obj.stat == 2 <==> Run(h, 0, |h|))
    ensures |old(obj.fs.disk.script)| == 0 ==> res.OK?
  {
    var fs := obj.fs;
    ghost var l0, w0, q, t := fs.Logical(), fs.winSect, |fs.disk.script| == 0, fs.Table();
    MetaStart(fs, q);
    res := OK;
    if obj.stat == 0 {
      var contiguous;
      res, contiguous := FollowsInOrder(obj, pclst, h);
      if res.OK? && contiguous {
        obj.stat := 2;
      }
    } else if obj.stat == 3 && pclst >= obj.sClust && pclst <= obj.sClust + obj.nCont {
      obj.stat := 2;
    }
  }

  /** Follow the chain from its start as long as each cluster leads to the next number. */
  method FollowsInOrder(obj: FfObj, pclst: nat, ghost h: seq<nat>) returns (res: FResult, contiguous: bool)
    requires obj.fs.Valid() && obj.fs.fsType.EXFAT? && obj.objSize > 0 && obj.stat == 0
    requires h != [] && Holds(obj.fs.Table(), obj.Status(), h) && obj.nFrag == 0
    requires obj.sClust == h[0] && pclst == h[|h| - 1]
    modifies obj.fs`wFlag, obj.fs`winSect, obj.fs.win, obj.fs.disk`sec, obj.fs.disk`script
    ensures MetaStep(obj.fs, old(obj.fs.Logical()), old(obj.fs.winSect), |old(obj.fs.disk.script)| == 0)
    ensures obj.fs.Table() == old(obj.fs.Table()) && Used(obj.fs) == old(Used(obj.fs))
    ensures res.OK? || res.DiskErr?
    ensures res.OK? ==> (contiguous <==> Run(h, 0, |h|))
    ensures |old(obj.fs.disk.script)| == 0 ==> res.OK?
  {
    var fs := obj.fs;
    ghost var l0, w0, q, t, u := fs.Logical(), fs.winSect, |fs.disk.script| == 0, fs.Table(), Used(fs);
    MetaStart(fs, q);
    assert Run(h, 0, 1);
    res := OK;
    var clst := obj.sClust;
    ghost var i := 0;
    hide FatFs.Table, FatFs.Logical, FatFs.Valid, Bits, Used, MetaStep, FatFs.SameButMirror, FatFs.WindowAtFat,
      SameData, Quot;
    while clst != pclst
      invariant MetaStep(fs, l0, w0, q) && fs.Valid() && fs.Table() == t && Used(fs) == u
      invariant 0 <= i < |h| && clst == h[i] && Run(h, 0, i + 1)
      decreases |h| - i
    {
      MetaFacts(fs, l0, w0, q);
      ghost var m, v, p := fs.Logical(), fs.winSect, |fs.disk.script| == 0;
      var nxt := obj.GetFat(clst);
      ReadOnly(fs, m, v, p);
      MetaTwice(fs, l0, w0, q, m, v, p);
      assert nxt == INVALID || nxt == t[h[i]] == h[i + 1];
      if nxt < 2 {
        return IntErr, false;
      }
      if nxt == INVALID {
        return DiskErr, false;
      }
      if nxt != clst + 1 {
        return OK, false;
      }
      RunGrows(h, 0, i);
      clst, i := clst + 1, i + 1;
    }
    contiguous := true;
  }

  ghost function Last(obj: FfObj): nat
    requires obj.chain != []
    reads obj`chain
  {
    obj.chain[|obj.chain| - 1]
  }

  /** What get_fat() says about the last cluster of the object. */
  ghost function EndMark(obj: FfObj): nat
    requires obj.Linked() && obj.chain != []
    reads obj`objSize, obj`stat, obj`sClust, obj`nCont, obj`nFrag, obj`chain, obj.fs`wFlag, obj.fs`winSect, obj.fs.win
    reads obj.fs.disk`sec
  {
    View(obj.fs.Table(), obj.Status(), obj.sClust, obj.Clen(), Last(obj))
  }

  /** remove_chain() from cluster number k on frees all of them: not on exFAT with the number after the last cluster for
      an end mark. */
  ghost predicate AllGo(obj: FfObj, k: nat)
    requires obj.Linked()
    reads obj`objSize, obj`stat, obj`sClust, obj`nCont, obj`nFrag, obj`chain, obj.fs`wFlag, obj.fs`winSect, obj.fs.win
    reads obj.fs.disk`sec
  {
    obj.fs.fsType.EXFAT? && k < |obj.chain| ==> EndMark(obj) != Last(obj) + 1
  }

  /** The clusters of ch from number k on are given back just if `all`; otherwise the last one stays in use. */
  ghost predicate GivenBack(all: bool, u: seq<bool>, ch: seq<nat>, k: nat, u': seq<bool>) {
    && k <= |ch| && (u' == Freed(u, ch[k..]) <==> all)
    && (!all ==> ch != [] && ch[|ch| - 1] < |u'| && u'[ch[|ch| - 1]])
  }

  lemma NothingGiven(u: seq<bool>, ch: seq<nat>)
    ensures GivenBack(true, u, ch, |ch|, u)
  {
    FreedNone(u, ch[|ch|..]);
  }

  /** The status of an object on exFAT says if it lies in one piece. */
  ghost predicate Tidy(obj: FfObj)
    reads obj`stat, obj`chain
  {
    if obj.chain == [] then obj.stat == 0 else obj.stat == 2 <==> Run(obj.chain, 0, |obj.chain|)
  }

  lemma RestOwned(obj: FfObj, k: nat)
    requires obj.Linked() && k < |obj.chain|
    ensures AllIn(Used(obj.fs), obj.chain[k..]) && Distinct(obj.chain[k..])
    ensures k > 0 ==> 2 <= obj.chain[k - 1] < obj.fs.nFatEnt && Used(obj.fs)[obj.chain[k - 1]]
    ensures 2 <= obj.chain[k]
  {
    SplitDistinct(obj.chain, k);
    assert k > 0 ==> obj.chain[k - 1] in obj.chain;
  }

  /** The first part of remove_chain() on exFAT: mark the new end, and free the rest of the chain. */
  method RemoveRest(obj: FfObj, clst: nat, pclst: nat, ghost k: nat) returns (res: FResult)
    requires obj.Linked() && obj.fs.fsType.EXFAT? && Removable(obj, k)
    requires clst == obj.chain[k] && pclst == if k == 0 then 0 else obj.chain[k - 1]
    modifies obj.fs`freeClst, obj.fs`fsiFlag
    modifies obj.fs`wFlag, obj.fs`winSect, obj.fs.win, obj.fs.disk`sec, obj.fs.disk`script
    ensures MetaStep(obj.fs, old(obj.fs.Logical()), old(obj.fs.winSect), |old(obj.fs.disk.script)| == 0)
    ensures res.OK? || res.DiskErr?
    ensures res.OK? && (k == 0 || obj.stat == 2) ==> obj.fs.Table() == old(obj.fs.Table())
    ensures res.OK? && k > 0 && obj.stat != 2 ==> obj.fs.Table() == old(obj.fs.Table())[pclst := EOC31]
    ensures res.OK? ==>
              exists m | 0 <= m <= |obj.chain[k..]| :: Used(obj.fs) == FreedTo(old(Used(obj.fs)), obj.chain[k..], m)
    ensures res.OK? ==>
              (Used(obj.fs) == Freed(old(Used(obj.fs)), obj.chain[k..]) <==> old(EndMark(obj)) != Last(obj) + 1)
    ensures res.OK? ==> Recounts(obj.fs, |obj.chain| - k)
    ensures res.OK? && old(CountOk(obj.fs)) && old(EndMark(obj)) != Last(obj) + 1 ==> CountOk(obj.fs)
    ensures |old(obj.fs.disk.script)| == 0 ==> res.OK?
  {
    hide Holds, Owned, SameData, FatFs.Logical, FatFs.Table, FatFs.Valid, Bits, Used, Run, Freed, FreedTo, Unused,
      Distinct, AllIn, Chained, View, MetaStep, CountOk, FfObj.Linked, FfObj.Clen;
    var fs := obj.fs;
    LinkedFacts(obj);
    ghost var t, a, ch, u := fs.Table(), obj.Status(), obj.chain, Used(fs);
    ghost var l, w, q := fs.Logical(), fs.winSect, |fs.disk.script| == 0;
    RestChained(obj, k);
    RestOwned(obj, k);
    MetaStart(fs, q);
    res := OK;
    if pclst != 0 && obj.stat != 2 {
      ViewBeyondCut(t, a, ch, k, |ch| - 1, obj.Clen(), EOC31);
      RestStillChained(t, a, ch, k, obj.Clen(), EOC31);
      res := MarkEnd(fs, pclst);
      if !res.OK? {
        return;
      }
    }
    MetaFacts(fs, l, w, q);
    ghost var m, v, p := fs.Logical(), fs.winSect, |fs.disk.script| == 0;
    res := RemoveExfat(obj, clst, ch[k..]);
    MetaTwice(fs, l, w, q, m, v, p);
  }

  /** The last part of remove_chain() on exFAT: the status of the clusters h that remain. */
  method KeepRest(obj: FfObj, pclst: nat, ghost h: seq<nat>) returns (res: FResult)
    requires obj.fs.Valid() && obj.fs.fsType.EXFAT? && obj.objSize > 0 && obj.nFrag == 0
    requires Owned(obj.fs, Used(obj.fs), h) && pclst == if h == [] then 0 else h[|h| - 1]
    requires h != [] ==> CutStatus(obj.fs.Table(), obj.Status(), obj.sClust, h) && 2 <= pclst
    modifies obj`stat, obj.fs`wFlag, obj.fs`winSect, obj.fs.win, obj.fs.disk`sec, obj.fs.disk`script
    ensures MetaStep(obj.fs, old(obj.fs.Logical()), old(obj.fs.winSect), |old(obj.fs.disk.script)| == 0)
    ensures obj.fs.Table() == old(obj.fs.Table()) && Used(obj.fs) == old(Used(obj.fs))
    ensures old(CountOk(obj.fs)) ==> CountOk(obj.fs)
    ensures res.OK? || res.DiskErr?
    ensures res.OK? ==> obj.Describes(obj.Status(), h) && (h == [] ==> obj.stat == 0)
    ensures res.OK? && h != [] ==> (obj.stat == 2 <==> Run(h, 0, |h|))
    ensures |old(obj.fs.disk.script)| == 0 ==> res.OK?
  {
    hide Holds, Owned, SameData, FatFs.Logical, FatFs.Table, FatFs.Valid, Bits, Used, CutStatus, CountOk, MetaStep;
    if pclst == 0 {
      res := OK;
      MetaStart(obj.fs, |obj.fs.disk.script| == 0);
      obj.stat := 0;
    } else {
      res := RefreshStatus(obj, pclst, h);
    }
  }

  /** Freeing in part leaves the last cluster in use. */
  lemma LastStays(u: seq<bool>, ch: seq<nat>, k: nat, m: nat)
    requires Distinct(ch) && k < |ch| && m <= |ch[k..]| && forall c | c in ch :: c < |u| && u[c]
    ensures FreedTo(u, ch[k..], m) == Freed(u, ch[k..]) || (ch[|ch| - 1] < |u| && FreedTo(u, ch[k..], m)[ch[|ch| - 1]])
  {
    var rest, c := ch[k..], ch[|ch| - 1];
    assert c in ch;
    if m == |rest| {
      FreedEnds(u, rest);
    } else {
      assert forall i | 0 <= i < m :: rest[..m][i] == ch[k + i];
    }
  }

  /** The FAT t' and the bitmap u' once the clusters from number k on are gone. */
  lemma RestLeft(fs: FatFs, t: seq<nat>, t': seq<nat>, a: Alloc, u: seq<bool>, u': seq<bool>, ch: seq<nat>, k: nat)
    requires fs.Shape() && |t| <= EOC31 && |u| == fs.nFatEnt && k < |ch| && a.nFrag == 0
    requires Holds(t, a, ch) && Owned(fs, u, ch)
    requires t' == if k == 0 || a.stat == 2 then t else t[ch[k - 1] := EOC31]
    requires exists m | 0 <= m <= |ch[k..]| :: u' == FreedTo(u, ch[k..], m)
    ensures SameElsewhere(t, t', ch, 0) && OnlyFreed(u, ch[k..], u') && Owned(fs, u', ch[..k])
    ensures k > 0 ==> CutStatus(t', a, ch[0], ch[..k]) && 2 <= ch[..k][|ch[..k]| - 1]
    ensures u' == Freed(u, ch[k..]) || (ch[|ch| - 1] < |u'| && u'[ch[|ch| - 1]])
  {
    if k > 0 {
      CutStatusHolds(t, a, ch, k);
    }
    MarkedElsewhere(t, ch, k);
    var m :| 0 <= m <= |ch[k..]| && u' == FreedTo(u, ch[k..], m);
    FreedOnly(u, ch[k..], m);
    OwnedShrinks(fs, u, ch, k, m);
    LastStays(u, ch, k, m);
  }

  /** remove_chain() on exFAT. */
  method RemoveChainExfat(obj: FfObj, clst: nat, pclst: nat, ghost k: nat) returns (res: FResult)
    requires obj.Linked() && obj.fs.fsType.EXFAT? && Removable(obj, k)
    requires clst == obj.chain[k] && pclst == if k == 0 then 0 else obj.chain[k - 1]
    modifies obj`chain, obj`stat, obj.fs`freeClst, obj.fs`fsiFlag
    modifies obj.fs`wFlag, obj.fs`winSect, obj.fs.win, obj.fs.disk`sec, obj.fs.disk`script
    ensures MetaStep(obj.fs, old(obj.fs.Logical()), old(obj.fs.winSect), |old(obj.fs.disk.script)| == 0)
    ensures res.OK? || res.DiskErr?
    ensures res.OK? ==> SameElsewhere(old(obj.fs.Table()), obj.fs.Table(), old(obj.chain), 0)
    ensures res.OK? ==> CutTo(obj, k) && OnlyFreed(old(Used(obj.fs)), old(obj.chain)[k..], Used(obj.fs))
    ensures res.OK? ==>
              (Used(obj.fs) == Freed(old(Used(obj.fs)), old(obj.chain)[k..])
               <==> old(EndMark(obj)) != old(Last(obj)) + 1)
    ensures res.OK? ==> if k == 0 then obj.stat == 0 else obj.stat == 2 <==> Run(obj.chain, 0, k)
    ensures res.OK? ==> Recounts(obj.fs, |old(obj.chain)| - k)
    ensures res.OK? && old(CountOk(obj.fs)) && old(EndMark(obj)) != old(Last(obj)) + 1 ==> CountOk(obj.fs)
    ensures res.OK? && old(EndMark(obj)) == old(Last(obj)) + 1 ==>
              old(Last(obj)) < obj.fs.nFatEnt && Used(obj.fs)[old(Last(obj))]
    ensures |old(obj.fs.disk.script)| == 0 ==> res.OK?
  {
    hide Holds, Owned, SameData, FatFs.Logical, FatFs.Table, FatFs.Valid, Bits, Used, Run, Freed, FreedTo, Unused,
      Distinct, AllIn, Chained, View, MetaStep, CountOk, FfObj.Linked, FfObj.Clen, CutStatus, EndMark, OnlyFreed,
      SameElsewhere, FatFs.Shape, WindowAtMeta, FatFs.InFat1, InBitmap, Raised;
    var fs := obj.fs;
    LinkedFacts(obj);
    ghost var t, a, ch, u := fs.Table(), obj.Status(), obj.chain, Used(fs);
    ghost var l, w, q := fs.Logical(), fs.winSect, |fs.disk.script| == 0;
    SizePositive(obj);
    RestOwned(obj, k);
    res := RemoveRest(obj, clst, pclst, k);
    MetaFacts(fs, l, w, q);
    if !res.OK? {
      return;
    }
    RestLeft(fs, t, fs.Table(), a, u, Used(fs), ch, k);
    ghost var m, v, p := fs.Logical(), fs.winSect, |fs.disk.script| == 0;
    res := KeepRest(obj, pclst, ch[..k]);
    MetaTwice(fs, l, w, q, m, v, p);
    if res.OK? {
      obj.chain := ch[..k];
    }
  }

  lemma SizePositive(obj: FfObj)
    requires 1 <= obj.fs.cSize
    ensures 0 <= obj.Clen() <==> obj.objSize > 0
  {
  }

  /** remove_chain(): free the clusters of the chain from clst, number k, to the end; pclst is the cluster
      before it (0: the entire chain goes). */
  method RemoveChain(obj: FfObj, clst: nat, pclst: nat, ghost k: nat) returns (res: FResult)
    requires obj.Linked() && Removable(obj, k)
    requires clst == obj.chain[k] && pclst == if k == 0 then 0 else obj.chain[k - 1]
    modifies obj`chain, obj`stat, obj.fs`freeClst, obj.fs`fsiFlag
    modifies obj.fs`wFlag, obj.fs`winSect, obj.fs.win, obj.fs.disk`sec, obj.fs.disk`script
    ensures MetaStep(obj.fs, old(obj.fs.Logical()), old(obj.fs.winSect), |old(obj.fs.disk.script)| == 0)
    ensures res.OK? || res.DiskErr?
    ensures res.OK? ==> SameElsewhere(old(obj.fs.Table()), obj.fs.Table(), old(obj.chain), 0)
    ensures res.OK? ==> CutTo(obj, k) && OnlyFreed(old(Used(obj.fs)), old(obj.chain)[k..], Used(obj.fs))
    ensures res.OK? && !obj.fs.fsType.EXFAT? ==>
              obj.fs.Table() == Cut(old(obj.fs.Table()), old(obj.chain), k, Mask(obj.fs.fsType, 0xFFFF_FFFF))
    ensures res.OK? ==> GivenBack(old(AllGo(obj, k)), old(Used(obj.fs)), old(obj.chain), k, Used(obj.fs))
    ensures res.OK? && obj.fs.fsType.EXFAT? ==> Tidy(obj)
    ensures res.OK? ==> Recounts(obj.fs, |old(obj.chain)| - k)
    ensures res.OK? && old(CountOk(obj.fs) && AllGo(obj, k)) ==> CountOk(obj.fs)
    ensures |old(obj.fs.disk.script)| == 0 ==> res.OK?
  {
    hide Holds, Owned, SameData, FatFs.Logical, FatFs.Table, FatFs.Valid, Bits, Used, Run, Freed, FreedTo, Distinct,
      MetaStep, CountOk, FfObj.Linked, FfObj.Clen, EndMark, OnlyFreed, SameElsewhere, FatFs.Shape, Raised, Cut;
    LinkedFacts(obj);
    if obj.fs.fsType.EXFAT? {
      res := RemoveChainExfat(obj, clst, pclst, k);
    } else {
      FreedOnly(Used(obj.fs), obj.chain[k..], 0);
      res := RemoveChainFat(obj, clst, pclst, k);
    }
  }

  /** Reading the FAT moves the window, which changes the use of no cluster. */
  lemma SameUsed(fs: FatFs, l: seq<Sector>)
    requires fs.Valid() && |l| == fs.disk.size && fs.SameButMirror(l, fs.Logical())
    ensures fs.fsType.EXFAT? ==> Bits(fs, l) == Bits(fs, fs.Logical())
  {
    BitmapOnDisk(fs);
    BitsFrame(fs, l, fs.Logical());
  }
}
