/** Several objects on one volume, stretched and cut in any order. */
module Allocators {
  import opened FatCodes
  import opened Volumes
  import opened Chains
  import opened ObjChains
  import opened Bitmaps
  import opened Objects

  /** The chains of objects that have clusters. */
  ghost function ChainSet(chs: seq<seq<nat>>): set<seq<nat>> {
    set i | 0 <= i < |chs| && chs[i] != [] :: chs[i]
  }

  /** No two objects have the same clusters. */
  ghost predicate Separate(chs: seq<seq<nat>>) {
    forall i, j | 0 <= i < j < |chs| && chs[i] != [] :: chs[i] != chs[j]
  }

  /** The FAT is the set of the objects' chains, one each. */
  ghost predicate Shared(t: seq<nat>, chs: seq<seq<nat>>) {
    WellFormed(t, ChainSet(chs)) && Separate(chs)
  }

  lemma Replacing(chs: seq<seq<nat>>, i: nat, ch: seq<nat>)
    requires i < |chs| && Separate(chs) && (ch != [] ==> ch !in chs)
    ensures Separate(chs[i := ch])
    ensures ChainSet(chs[i := ch]) == Replaced(ChainSet(chs), chs[i], ch)
  {
    var d, l, r := chs[i := ch], ChainSet(chs[i := ch]), Replaced(ChainSet(chs), chs[i], ch);
    forall x | x in l
      ensures x in r
    {
      var k :| 0 <= k < |d| && d[k] == x && x != [];
      if k != i {
        assert chs[k] == x && x in ChainSet(chs) && x != chs[i];
      }
    }
    forall x | x in r
      ensures x in l
    {
      if x == ch {
        assert d[i] == x;
      } else {
        var k :| 0 <= k < |chs| && chs[k] == x && x != [];
        assert d[k] == x;
      }
    }
  }

  /** The objects objs are all there is on the volume: their chains chs are the FAT, and a valid free count
      is right. */
  ghost predicate Live(fs: FatFs, objs: seq<FfObj>, chs: seq<seq<nat>>)
    reads objs, fs`freeClst, fs`wFlag, fs`winSect, fs.win, fs.disk`sec
  {
    && fs.Valid() && !fs.fsType.EXFAT? && |objs| == |chs|
    && (forall i, j | 0 <= i < j < |objs| :: objs[i] != objs[j])
    && (forall i | 0 <= i < |objs| :: Has(objs[i], fs, chs[i]))
    && Shared(fs.Table(), chs) && CountOk(fs)
  }

  ghost predicate Has(obj: FfObj, fs: FatFs, ch: seq<nat>)
    reads obj
  {
    obj.fs == fs && obj.chain == ch && obj.sClust == if ch == [] then 0 else ch[0]
  }

  /** Each object of a live volume is one that create_chain() and remove_chain() can work on. */
  lemma LiveObject(fs: FatFs, objs: seq<FfObj>, chs: seq<seq<nat>>, i: nat)
    requires Live(fs, objs, chs) && i < |objs|
    ensures objs[i].Linked() && 1 <= fs.cSize && 3 <= fs.nFatEnt && objs[i].fs == fs && objs[i].chain == chs[i]
    ensures chs[i] != [] ==> IsChain(fs.Table(), chs[i])
  {
    assert Has(objs[i], fs, chs[i]);
    if chs[i] != [] {
      assert chs[i] in ChainSet(chs);
      OnFatIsChain(fs.Table(), chs[i]);
      OnChainInUse(fs.Table(), chs[i]);
    }
  }

  /** A chain that was stretched. */
  lemma Lengthens(t: seq<nat>, chs: seq<seq<nat>>, i: nat, new_: nat, eoc: nat)
    requires Shared(t, chs) && i < |chs| && 2 <= new_ < |t| && t[new_] == 0 && eoc >= |t|
    ensures chs[i] != [] ==> 2 <= chs[i][|chs[i]| - 1] < |t|
    ensures Shared(Grown(t, if chs[i] == [] then 0 else chs[i][|chs[i]| - 1], new_, eoc), chs[i := chs[i] + [new_]])
  {
    var ch := chs[i];
    forall j | 0 <= j < |chs|
      ensures chs[j] != ch + [new_]
    {
      assert (ch + [new_])[|ch|] == new_ && new_ in ch + [new_];
      if chs[j] != [] {
        assert chs[j] in ChainSet(chs);
        OnChainInUse(t, chs[j]);
      }
    }
    Replacing(chs, i, ch + [new_]);
    if ch == [] {
      StartKeepsChains(t, ChainSet(chs), new_, eoc);
      assert ch + [new_] == [new_];
    } else {
      assert ch in ChainSet(chs);
      StretchKeepsChains(t, ChainSet(chs), ch, new_, eoc);
    }
  }

  /** A chain that was cut. */
  lemma Cuts(t: seq<nat>, chs: seq<seq<nat>>, i: nat, k: nat, eoc: nat)
    requires Shared(t, chs) && i < |chs| && k < |chs[i]| && eoc >= |t|
    ensures IsChain(t, chs[i]) && Shared(Cut(t, chs[i], k, eoc), chs[i := chs[i][..k]])
  {
    var ch := chs[i];
    assert ch in ChainSet(chs);
    forall j | 0 <= j < |chs| && k > 0
      ensures chs[j] != ch[..k]
    {
      assert ch[..k][0] == ch[0] && ch[0] in ch && ch[0] in ch[..k];
      if chs[j] != [] && chs[j] != ch {
        assert chs[j] in ChainSet(chs);
        assert Chains.Apart(chs[j], ch);
      }
    }
    Replacing(chs, i, ch[..k]);
    CutKeepsChains(t, ChainSet(chs), ch, k, eoc);
  }

  /** A FAT that is all chains has no entry of value 1. */
  lemma NoOnes(t: seq<nat>, chs: seq<seq<nat>>)
    requires Shared(t, chs)
    ensures forall c | 2 <= c < |t| :: t[c] != 1
  {
    forall c | 2 <= c < |t| && t[c] != 0
      ensures t[c] != 1
    {
      assert Covered(ChainSet(chs), c);
      var ch :| ch in ChainSet(chs) && c in ch;
      OnChainInUse(t, ch);
    }
  }

  /** One object on the volume changed, and with it the FAT: the volume is still live. */
  lemma StillLive(fs: FatFs, objs: seq<FfObj>, chs: seq<seq<nat>>)
    requires fs.Valid() && !fs.fsType.EXFAT? && |objs| == |chs|
    requires forall i, j | 0 <= i < j < |objs| :: objs[i] != objs[j]
    requires forall i | 0 <= i < |objs| :: Has(objs[i], fs, chs[i])
    requires Shared(fs.Table(), chs) && CountOk(fs)
    ensures Live(fs, objs, chs)
  {
  }

  /** create_chain() at the end, clst, of object number i (0: it has no cluster). */
  method StretchOne(fs: FatFs, objs: seq<FfObj>, i: nat, clst: nat, ghost chs: seq<seq<nat>>) returns (r: nat)
    requires Live(fs, objs, chs) && i < |objs| && clst == if chs[i] == [] then 0 else chs[i][|chs[i]| - 1]
    modifies objs, fs`lastClst, fs`freeClst, fs`fsiFlag, fs`wFlag, fs`winSect, fs.win, fs.disk`sec, fs.disk`script
    ensures r == 0 ==> Live(fs, objs, chs) && (fs.freeClst == 0 || AllUsed(Used(fs)))
    ensures r != 1
    ensures r != 0 && r != INVALID ==> Live(fs, objs, chs[i := chs[i] + [r]])
    ensures |old(fs.disk.script)| == 0 ==> r != INVALID && |fs.disk.script| == 0
  {
    hide FatFs.Table, FatFs.Logical, FatFs.Valid, FatFs.Shape, Holds, MetaStep, Owned, SameData, FfObj.Linked,
      WellFormed, AllUsed, Grown, Mask, Shared, CountOk, Bits, Used;
    var obj := objs[i];
    LiveObject(fs, objs, chs, i);
    LinkedFacts(obj);
    EntriesFit(fs);
    ghost var t, ch, k, q := fs.Table(), chs[i], if chs[i] == [] then 0 else |chs[i]| - 1, |fs.disk.script| == 0;
    ghost var l, w := fs.Logical(), fs.winSect;
    EndOfLive(fs, obj, ch);
    NoOnes(t, chs);
    r := CreateChain(obj, clst, k);
    MetaFacts(fs, l, w, q);
    if r == INVALID {
      return;
    }
    if r == 0 {
      StillLive(fs, objs, chs);
      return;
    }
    if clst == 0 {
      obj.sClust := r;
    }
    Lengthens(t, chs, i, r, Mask(fs.fsType, 0xFFFF_FFFF));
    StillLive(fs, objs, chs[i := ch + [r]]);
  }

  lemma EndOfLive(fs: FatFs, obj: FfObj, ch: seq<nat>)
    requires obj.Linked() && obj.fs == fs && obj.chain == ch && !fs.fsType.EXFAT? && 1 <= fs.cSize
    ensures forall i | 0 <= i < |ch| :: obj.Followable(i) && Removable(obj, i)
    ensures forall i | 0 <= i < |ch| :: 2 <= ch[i]
    ensures Used(fs) == UsedIn(fs.Table())
  {
    ChainInTable(obj);
  }

  /** remove_chain() of object number i from its cluster number k, clst, on; pclst is the cluster before it. */
  method CutOne(fs: FatFs, objs: seq<FfObj>, i: nat, clst: nat, pclst: nat, ghost k: nat, ghost chs: seq<seq<nat>>)
    returns (res: FResult)
    requires Live(fs, objs, chs) && i < |objs| && k < |chs[i]|
    requires clst == chs[i][k] && pclst == if k == 0 then 0 else chs[i][k - 1]
    modifies objs, fs`freeClst, fs`fsiFlag, fs`wFlag, fs`winSect, fs.win, fs.disk`sec, fs.disk`script
    ensures res.OK? || res.DiskErr?
    ensures res.OK? ==> Live(fs, objs, chs[i := chs[i][..k]])
    ensures |old(fs.disk.script)| == 0 ==> res.OK? && |fs.disk.script| == 0
  {
    hide FatFs.Table, FatFs.Logical, FatFs.Valid, FatFs.Shape, Holds, MetaStep, Owned, SameData, FfObj.Linked,
      WellFormed, Cut, Mask, Shared, CountOk, Bits, Used, Removable, EndMark, Freed, OnlyFreed;
    var obj := objs[i];
    LiveObject(fs, objs, chs, i);
    LinkedFacts(obj);
    EntriesFit(fs);
    ghost var t, ch, q, l, w := fs.Table(), chs[i], |fs.disk.script| == 0, fs.Logical(), fs.winSect;
    EndOfLive(fs, obj, ch);
    res := RemoveChain(obj, clst, pclst, k);
    MetaFacts(fs, l, w, q);
    if !res.OK? {
      return;
    }
    if pclst == 0 {
      obj.sClust := 0;
    }
    Cuts(t, chs, i, k, Mask(fs.fsType, 0xFFFF_FFFF));
    StillLive(fs, objs, chs[i := ch[..k]]);
  }

  // ---------------------------------------------------------------- any type of volume

  /** Every object is as the volume describes it, and no cluster belongs to two of them. */
  ghost predicate Exclusive(fs: FatFs, objs: seq<FfObj>)
    reads objs, fs`wFlag, fs`winSect, fs.win, fs.disk`sec
  {
    && (forall i, j | 0 <= i < j < |objs| :: objs[i] != objs[j])
    && (forall i | 0 <= i < |objs| :: objs[i].fs == fs && objs[i].Linked())
    && (forall i, j | 0 <= i < |objs| && 0 <= j < |objs| && i != j :: Chains.Apart(objs[i].chain, objs[j].chain))
  }

  /** The chain ch of another object, whose status is a, while the FAT t and the use u of the clusters change
      for the clusters ch0 and the free cluster r. */
  lemma OtherStays(fs: FatFs, t: seq<nat>, u: seq<bool>, t': seq<nat>, u': seq<bool>, a: Alloc, ch: seq<nat>,
    ch0: seq<nat>, r: nat)
    requires fs.Shape() && |t| == |u| == |u'| == fs.nFatEnt && (ch != [] ==> Holds(t, a, ch))
    requires Owned(fs, u, ch) && Owned(fs, u, ch0) && Chains.Apart(ch, ch0)
    requires SameElsewhere(t, t', ch0, r) && (2 <= r < |u| ==> !u[r])
    requires forall c | 0 <= c < |u| && u[c] && c !in ch0 :: u'[c]
    ensures (ch != [] ==> Holds(t', a, ch)) && Owned(fs, u', ch)
  {
    if ch != [] {
      forall c | c in ch
        ensures t'[c] == t[c]
      {
        assert u[c] && c !in ch0;
        var i :| 0 <= i < |ch| && ch[i] == c;
        assert 2 <= c < |t|;
      }
      HoldsFrame(t, t', a, ch);
    }
  }

  /** create_chain() at the end, clst, of object number i (0: it has no cluster), on any volume. */
  method StretchAny(fs: FatFs, objs: seq<FfObj>, i: nat, clst: nat) returns (r: nat)
    requires fs.Valid() && 1 <= fs.cSize && Exclusive(fs, objs) && i < |objs|
    requires clst == if objs[i].chain == [] then 0 else Last(objs[i])
    requires objs[i].chain != [] ==> objs[i].Followable(|objs[i].chain| - 1)
    modifies objs, fs`lastClst, fs`freeClst, fs`fsiFlag, fs`wFlag, fs`winSect, fs.win, fs.disk`sec, fs.disk`script
    ensures fs.Valid() && (r != INVALID ==> Exclusive(fs, objs))
    ensures r == 0 ==> fs.freeClst == 0 || AllUsed(Used(fs))
    ensures r == 1 ==> exists c | 2 <= c < fs.nFatEnt :: fs.Table()[c] == 1
    ensures r == 0 || r == 1 ==> objs[i].chain == old(objs[i].chain)
    ensures r != 0 && r != 1 && r != INVALID ==> objs[i].chain == old(objs[i].chain) + [r]
    ensures forall j | 0 <= j < |objs| && j != i :: objs[j].chain == old(objs[j].chain)
    ensures old(CountOk(fs)) && r != INVALID ==> CountOk(fs)
    ensures |old(fs.disk.script)| == 0 ==> r != INVALID
  {
    hide FatFs.Table, FatFs.Logical, FatFs.Valid, FatFs.Shape, Holds, MetaStep, Owned, SameData, AllUsed, Grown, Mask,
      CountOk, Bits, Used, SameElsewhere, FfObj.Followable, Chains.Apart;
    var obj := objs[i];
    LinkedFacts(obj);
    ghost var t, u, ch := fs.Table(), Used(fs), obj.chain;
    ghost var l, w, q := fs.Logical(), fs.winSect, |fs.disk.script| == 0;
    ghost var k := if ch == [] then 0 else |ch| - 1;
    ChainInTable(obj);
    r := CreateChain(obj, clst, k);
    MetaFacts(fs, l, w, q);
    if r == INVALID {
      return;
    }
    if r == 0 || r == 1 {
      forall j | 0 <= j < |objs| && j != i
        ensures objs[j].Linked()
      {
        assert old(objs[j].Linked());
      }
      return;
    }
    if clst == 0 {
      obj.sClust := r;
    }
    forall j | 0 <= j < |objs| && j != i
      ensures objs[j].Linked() && Chains.Apart(objs[j].chain, obj.chain) && Chains.Apart(obj.chain, objs[j].chain)
    {
      OtherStays(fs, t, u, fs.Table(), Used(fs), objs[j].Status(), objs[j].chain, ch, r);
      StillApart(fs, u, objs[j].chain, ch, r);
    }
  }

  lemma StillApart(fs: FatFs, u: seq<bool>, ch: seq<nat>, ch0: seq<nat>, r: nat)
    requires fs.Shape() && |u| == fs.nFatEnt && Owned(fs, u, ch) && Chains.Apart(ch, ch0) && r < |u| && !u[r]
    ensures Chains.Apart(ch, ch0 + [r]) && Chains.Apart(ch0 + [r], ch)
  {
  }

  /** remove_chain() of object number i from its cluster number k, clst, on, on any volume; pclst is the cluster
      before it. */
  method CutAny(fs: FatFs, objs: seq<FfObj>, i: nat, clst: nat, pclst: nat, ghost k: nat) returns (res: FResult)
    requires fs.Valid() && 1 <= fs.cSize && Exclusive(fs, objs) && i < |objs| && Removable(objs[i], k)
    requires clst == objs[i].chain[k] && pclst == if k == 0 then 0 else objs[i].chain[k - 1]
    modifies objs, fs`freeClst, fs`fsiFlag, fs`wFlag, fs`winSect, fs.win, fs.disk`sec, fs.disk`script
    ensures res.OK? || res.DiskErr?
    ensures res.OK? ==> fs.Valid() && Exclusive(fs, objs) && objs[i].chain == old(objs[i].chain)[..k]
    ensures forall j | 0 <= j < |objs| && j != i :: objs[j].chain == old(objs[j].chain)
    ensures |old(fs.disk.script)| == 0 ==> res.OK?
  {
    hide FatFs.Table, FatFs.Logical, FatFs.Valid, FatFs.Shape, Holds, MetaStep, Owned, SameData, Cut, Mask, CountOk,
      Bits, Used, Removable, EndMark, Freed, OnlyFreed, SameElsewhere, Chains.Apart, FatFs.SectorOf,
      FatFs.MaxClusters, NoneBroken;
    var obj := objs[i];
    LinkedFacts(obj);
    ghost var t, u, ch, q, l, w := fs.Table(), Used(fs), obj.chain, |fs.disk.script| == 0, fs.Logical(), fs.winSect;
    InsideChain(obj, k);
    res := RemoveChain(obj, clst, pclst, k);
    MetaFacts(fs, l, w, q);
    if !res.OK? {
      return;
    }
    if pclst == 0 {
      obj.sClust := 0;
    }
    forall j | 0 <= j < |objs| && j != i
      ensures objs[j].Linked() && Chains.Apart(objs[j].chain, obj.chain) && Chains.Apart(obj.chain, objs[j].chain)
    {
      FreedOthers(u, ch, k, Used(fs));
      OtherStays(fs, t, u, fs.Table(), Used(fs), objs[j].Status(), objs[j].chain, ch, 0);
      PrefixApart(objs[j].chain, ch, k);
    }
  }

  lemma InsideChain(obj: FfObj, k: nat)
    requires obj.Linked() && 1 <= obj.fs.cSize && Removable(obj, k)
    ensures k < |obj.chain| && 2 <= obj.chain[k] && (k > 0 ==> 2 <= obj.chain[k - 1])
  {
    ChainInTable(obj);
  }

  lemma FreedOthers(u: seq<bool>, ch: seq<nat>, k: nat, u': seq<bool>)
    requires k <= |ch| && OnlyFreed(u, ch[k..], u')
    ensures forall c | 0 <= c < |u| && u[c] && c !in ch :: u'[c]
  {
    assert forall c | c in ch[k..] :: c in ch;
  }

  lemma PrefixApart(a: seq<nat>, ch: seq<nat>, k: nat)
    requires Chains.Apart(a, ch) && k <= |ch|
    ensures Chains.Apart(a, ch[..k]) && Chains.Apart(ch[..k], a)
  {
    assert forall c | c in ch[..k] :: c in ch;
  }
}
