/** The cluster link map of a file (fast seek): its fragments in a table. */
module LinkMaps {
  import opened Volumes
  import opened Chains
  import opened ObjChains
  import opened Objects
  import opened Files

  /** The pairs (length, first cluster) in m are the chain ch, run by run. */
  ghost predicate Covers(m: seq<nat>, ch: seq<nat>)
    decreases |m|
  {
    if |m| < 2 then m == [] && ch == []
    else 0 < m[0] <= |ch| && Run(ch, 0, m[0]) && ch[0] == m[1] && Covers(m[2..], ch[m[0]..])
  }

  lemma RunStays(ch: seq<nat>, r: seq<nat>, n: nat)
    requires 0 < n <= |ch| && Run(ch, 0, n)
    ensures Run(ch + r, 0, n) && (ch + r)[0] == ch[0]
  {
  }

  lemma {:induction false} CoversMore(m: seq<nat>, ch: seq<nat>, r: seq<nat>)
    requires Covers(m, ch) && r != [] && Run(r, 0, |r|)
    ensures Covers(m + [|r|, r[0]], ch + r)
    decreases |m|
  {
    hide Run;
    var d := ch + r;
    if m == [] {
      assert d == r && r[|r|..] == [];
    } else {
      var n := m[0];
      CoversMore(m[2..], ch[n..], r);
      assert d[n..] == ch[n..] + r;
      assert (m + [|r|, r[0]])[2..] == m[2..] + [|r|, r[0]];
      RunStays(ch, r, n);
    }
  }

  /** Number of runs of consecutive clusters. */
  function Fragments(ch: seq<nat>): nat {
    if ch == [] then 0
    else Fragments(ch[..|ch| - 1]) + if |ch| > 1 && ch[|ch| - 1] == ch[|ch| - 2] + 1 then 0 else 1
  }

  /** The table holds the map of the chain: its own length, the fragments, and 0. */
  ghost predicate MapOf(tbl: array<nat>, ch: seq<nat>)
    reads tbl
  {
    var n := 2 * Fragments(ch) + 1;
    n < tbl.Length && tbl[0] == n + 1 && tbl[n] == 0 && Covers(tbl[1..n], ch)
  }

  /** clmt_clust(): the cluster of the byte at ofs, 0 beyond the end. */
  method ClmtClust(tbl: array<nat>, ofs: nat, cSize: nat, ghost ch: seq<nat>) returns (c: nat)
    requires 0 < cSize && MapOf(tbl, ch)
    ensures c == var i := Quot(ofs / 512, cSize); if i < |ch| then ch[i] else 0
  {
    hide *;
    MapFacts(tbl, ch);
    var i, cl := 1, Quot(ofs / 512, cSize);
    ghost var n, k, at := 2 * Fragments(ch) + 1, 0, Quot(ofs / 512, cSize);
    while true
      invariant 1 <= i <= n < tbl.Length && 0 <= k <= |ch| && 0 <= cl && cl + k == at
      invariant tbl[n] == 0 && Covers(tbl[i..n], ch[k..])
      decreases n - i
    {
      NextPair(tbl, n, i, ch, k, cl);
      if tbl[i] == 0 {
        return 0;
      }
      if cl < tbl[i] {
        break;
      }
      k := k + tbl[i];
      cl, i := cl - tbl[i], i + 2;
    }
    return cl + tbl[i + 1];
  }

  lemma MapFacts(tbl: array<nat>, ch: seq<nat>)
    requires MapOf(tbl, ch)
    ensures var n := 2 * Fragments(ch) + 1; 1 <= n < tbl.Length && tbl[n] == 0 && Covers(tbl[1..n], ch[0..])
  {
    hide Covers, Fragments;
    assert ch[0..] == ch;
  }

  /** The pair at i of a table that ends at n is the next run of the chain, from cluster number k on; a is the
      number of a cluster in it. */
  lemma NextPair(tbl: array<nat>, n: nat, i: nat, ch: seq<nat>, k: nat, a: nat)
    requires i <= n < tbl.Length && tbl[n] == 0 && k <= |ch| && Covers(tbl[i..n], ch[k..])
    ensures tbl[i] == 0 ==> k == |ch|
    ensures tbl[i] != 0 ==> i + 2 <= n && k + tbl[i] <= |ch| && Covers(tbl[i + 2..n], ch[k + tbl[i]..])
    ensures a < tbl[i] ==> i + 2 <= n && k + a < |ch| && ch[k + a] == a + tbl[i + 1]
  {
    var m, d := tbl[i..n], ch[k..];
    if i < n {
      assert m[0] == tbl[i] && m[1] == tbl[i + 1];
      assert m[2..] == tbl[i + 2..n] && d[m[0]..] == ch[k + m[0]..];
      assert a < m[0] ==> d[a] == d[0] + a;
    }
  }

  /** What get_fat() says about cluster c of the object. */
  ghost function NextOf(obj: FfObj, c: nat): nat
    requires obj.Linked() && c < obj.fs.nFatEnt && 1 <= obj.fs.cSize
    reads obj`objSize, obj`stat, obj`sClust, obj`nCont, obj`nFrag, obj`chain
    reads obj.fs`wFlag, obj.fs`winSect, obj.fs.win, obj.fs.disk`sec
  {
    if obj.fs.fsType.EXFAT? then View(obj.fs.Table(), obj.Status(), obj.sClust, obj.Clen(), c) else obj.fs.Table()[c]
  }

  /** All links of the object can be followed, and the mark at its end is not the number after the last. */
  ghost predicate EndsClearly(obj: FfObj)
    requires Followed(obj)
    reads obj`objSize, obj`stat, obj`sClust, obj`nCont, obj`nFrag, obj`chain
    reads obj.fs`wFlag, obj.fs`winSect, obj.fs.win, obj.fs.disk`sec
  {
    obj.chain == [] || NextOf(obj, obj.chain[|obj.chain| - 1]) != obj.chain[|obj.chain| - 1] + 1
  }

  ghost predicate Followed(obj: FfObj)
    reads obj`objSize, obj`stat, obj`sClust, obj`nCont, obj`nFrag, obj`chain
    reads obj.fs`wFlag, obj.fs`winSect, obj.fs.win, obj.fs.disk`sec
  {
    && obj.Linked() && 1 <= obj.fs.cSize && InTable(obj.fs.nFatEnt, obj.chain)
    && forall i | 0 <= i < |obj.chain| :: Follows(obj.fs.nFatEnt, obj.chain, i, NextOf(obj, obj.chain[i]))
  }

  /** An object of size 0 that has clusters: get_fat() follows none on an exFAT volume. */
  ghost predicate Sizeless(obj: FfObj)
    reads obj`objSize, obj`stat, obj`sClust, obj`nCont, obj`nFrag, obj`chain
    reads obj.fs`wFlag, obj.fs`winSect, obj.fs.win, obj.fs.disk`sec
  {
    && obj.Linked() && 1 <= obj.fs.cSize && InTable(obj.fs.nFatEnt, obj.chain)
    && obj.fs.fsType.EXFAT? && obj.chain != [] && obj.objSize == 0
  }

  /** get_fat() can follow the whole object, or nothing of it. */
  ghost predicate Placed(obj: FfObj)
    reads obj`objSize, obj`stat, obj`sClust, obj`nCont, obj`nFrag, obj`chain
    reads obj.fs`wFlag, obj.fs`winSect, obj.fs.win, obj.fs.disk`sec
  {
    Followed(obj) || Sizeless(obj)
  }

  /** A map of the object can be made. */
  ghost predicate Mappable(obj: FfObj)
    reads obj`objSize, obj`stat, obj`sClust, obj`nCont, obj`nFrag, obj`chain
    reads obj.fs`wFlag, obj.fs`winSect, obj.fs.win, obj.fs.disk`sec
  {
    Followed(obj) && EndsClearly(obj)
  }

  lemma CanFollowAll(obj: FfObj)
    requires obj.Linked() && 1 <= obj.fs.cSize && forall i | 0 <= i < |obj.chain| :: obj.Followable(i)
    ensures Followed(obj)
  {
    ChainInTable(obj);
    forall i | 0 <= i < |obj.chain|
      ensures Follows(obj.fs.nFatEnt, obj.chain, i, NextOf(obj, obj.chain[i]))
    {
      obj.GetFatFollows(i);
    }
  }

  /** Once f_lseek() has written the last fragment, get_fat() can follow the whole file, unless it is one of
      size 0 that has clusters on an exFAT volume. */
  lemma SettledIsFollowed(fp: Fil, p: nat)
    requires fp.Core() && 0 < fp.obj.fs.cSize && fp.Sized(p) && (fp.obj.fs.fsType.EXFAT? ==> fp.obj.nFrag == 0)
    ensures Followed(fp.obj) <==> (fp.obj.fs.fsType.EXFAT? && fp.obj.chain != [] ==> fp.obj.objSize > 0)
    ensures Followed(fp.obj) <==> !Sizeless(fp.obj)
  {
    hide *;
    fp.CoreFacts();
    SizelessIs(fp.obj);
    if fp.obj.fs.fsType.EXFAT? && fp.obj.chain != [] && fp.obj.objSize == 0 {
      NoSize(fp.obj);
    } else {
      forall i | 0 <= i < |fp.obj.chain|
        ensures fp.obj.Followable(i)
      {
        Settled(fp, p, i);
      }
      CanFollowAll(fp.obj);
    }
  }

  lemma SizelessIs(obj: FfObj)
    requires obj.Linked() && 1 <= obj.fs.cSize
    ensures Sizeless(obj) <==> obj.fs.fsType.EXFAT? && obj.chain != [] && obj.objSize == 0
  {
    ChainInTable(obj);
  }

  lemma NoSize(obj: FfObj)
    requires obj.Linked() && obj.fs.fsType.EXFAT? && obj.chain != [] && obj.objSize == 0
    ensures !Followed(obj)
  {
    assert !Follows(obj.fs.nFatEnt, obj.chain, 0, 1);
  }

  lemma Settled(fp: Fil, p: nat, i: nat)
    requires fp.Core() && 0 < fp.obj.fs.cSize && fp.Sized(p) && i < |fp.obj.chain|
    requires fp.obj.fs.fsType.EXFAT? ==> fp.obj.nFrag == 0 && fp.obj.objSize > 0
    ensures fp.obj.Followable(i)
  {
    if fp.obj.fs.fsType.EXFAT? {
      hide Fil.Core;
      fp.CanFollow(i);
    }
  }

  lemma FollowedAt(obj: FfObj, i: nat)
    requires Placed(obj)
    ensures Followed(obj) && i < |obj.chain| ==>
              Follows(obj.fs.nFatEnt, obj.chain, i, NextOf(obj, obj.chain[i]))
    ensures i < |obj.chain| ==> 2 <= obj.chain[i] < obj.fs.nFatEnt
    ensures Followed(obj) && i + 1 == |obj.chain| ==> (Mappable(obj) <==> NextOf(obj, obj.chain[i]) != obj.chain[i] + 1)
    ensures Mappable(obj) ==> Followed(obj)
    ensures 3 <= obj.fs.nFatEnt < INVALID
  {
  }

  /** get_fat(), for the object or beyond it. */
  method Look(obj: FfObj, clst: nat) returns (val: nat)
    requires Placed(obj)
    modifies obj.fs`wFlag, obj.fs`winSect, obj.fs.win, obj.fs.disk`sec, obj.fs.disk`script
    ensures Placed(obj) && (Followed(obj) <==> old(Followed(obj))) && (Mappable(obj) <==> old(Mappable(obj)))
    ensures clst >= obj.fs.nFatEnt || !Followed(obj) ==> val == 1
    ensures Followed(obj) && 2 <= clst < obj.fs.nFatEnt ==> val == INVALID || val == NextOf(obj, clst)
    ensures MetaStep(obj.fs, old(obj.fs.Logical()), old(obj.fs.winSect), |old(obj.fs.disk.script)| == 0)
    ensures obj.fs.Table() == old(obj.fs.Table()) && Used(obj.fs) == old(Used(obj.fs))
    ensures |old(obj.fs.disk.script)| == 0 ==> |obj.fs.disk.script| == 0 && val != INVALID
  {
    hide FatFs.Table, FatFs.Logical, FatFs.Valid, View, Used, Owned, Holds, FfObj.Clen, MetaStep;
    ghost var l, w, q := obj.fs.Logical(), obj.fs.winSect, |obj.fs.disk.script| == 0;
    val := obj.GetFat(clst);
    ReadOnly(obj.fs, l, w, q);
  }

  /** Follow the run from cluster number k: cl, the cluster after it, and its length. */
  method FollowRun(obj: FfObj, tcl: nat, ghost k: nat) returns (res: FResult, cl: nat, ncl: nat)
    requires Placed(obj) && k < |obj.chain| && tcl == obj.chain[k]
    modifies obj.fs`wFlag, obj.fs`winSect, obj.fs.win, obj.fs.disk`sec, obj.fs.disk`script
    ensures Placed(obj) && (Followed(obj) <==> old(Followed(obj))) && (Mappable(obj) <==> old(Mappable(obj)))
    ensures res.OK? ==> 0 < ncl && k + ncl <= |obj.chain| && Run(obj.chain, k, k + ncl)
    ensures res.OK? && k + ncl < |obj.chain| ==> cl == obj.chain[k + ncl] != obj.chain[k + ncl - 1] + 1
    ensures res.OK? && k + ncl == |obj.chain| ==> cl >= obj.fs.nFatEnt && Mappable(obj)
    ensures res.OK? || res.DiskErr? || (res.IntErr? && !Mappable(obj))
    ensures MetaStep(obj.fs, old(obj.fs.Logical()), old(obj.fs.winSect), |old(obj.fs.disk.script)| == 0)
    ensures obj.fs.Table() == old(obj.fs.Table()) && Used(obj.fs) == old(Used(obj.fs))
    ensures |old(obj.fs.disk.script)| == 0 ==> |obj.fs.disk.script| == 0 && !res.DiskErr?
  {
    hide FfObj.Linked, NextOf, Followed, EndsClearly, Mappable, Placed, MetaStep, FatFs.Valid, FatFs.Shape,
      FatFs.Logical, FatFs.Table, Used, SameData;
    StartOf(obj);
    ghost var fs, l, w, q := obj.fs, obj.fs.Logical(), obj.fs.winSect, |obj.fs.disk.script| == 0;
    MetaStart(fs, q);
    cl, ncl := tcl, 0;
    var pcl := tcl;
    while true
      invariant Placed(obj) && (Followed(obj) <==> old(Followed(obj))) && (Mappable(obj) <==> old(Mappable(obj)))
      invariant Followed(obj) || ncl == 0
      invariant 0 <= ncl && k + ncl <= |obj.chain| && Run(obj.chain, k, k + ncl)
      invariant if k + ncl < |obj.chain| then cl == obj.chain[k + ncl] && Run(obj.chain, k, k + ncl + 1)
        else cl >= obj.fs.nFatEnt && !Mappable(obj)
      invariant MetaStep(fs, l, w, q) && fs.Valid()
      invariant fs.Table() == old(obj.fs.Table()) && Used(fs) == old(Used(obj.fs))
      decreases |obj.chain| - ncl
    {
      pcl, ncl := cl, ncl + 1;
      FollowedAt(obj, k + ncl - 1);
      MetaFacts(fs, l, w, q);
      ghost var m, v, p := fs.Logical(), fs.winSect, |fs.disk.script| == 0;
      cl := Look(obj, cl);
      MetaTwice(fs, l, w, q, m, v, p);
      MetaFacts(fs, l, w, q);
      FollowedAt(obj, k + ncl - 1);
      if cl <= 1 {
        return IntErr, cl, ncl;
      }
      if cl == INVALID {
        return DiskErr, cl, ncl;
      }
      if cl != pcl + 1 {
        return OK, cl, ncl;
      }
    }
  }

  /** A run that does not continue the one before it is one more fragment. */
  lemma {:induction false} FragmentMore(ch: seq<nat>, k: nat, n: nat)
    requires 0 < n && k + n <= |ch| && Run(ch, k, k + n) && (k > 0 ==> ch[k] != ch[k - 1] + 1)
    ensures Fragments(ch[..k + n]) == Fragments(ch[..k]) + 1
  {
    var d := ch[..k + n];
    assert d[..|d| - 1] == ch[..k + n - 1];
    if n > 1 {
      FragmentMore(ch, k, n - 1);
    }
  }

  /** The fragments of the first k clusters are in the table, if it has room for them. */
  ghost predicate MapSoFar(tbl: array<nat>, tlen: nat, j: nat, ulen: nat, ch: seq<nat>, k: nat)
    requires k <= |ch|
    reads tbl
  {
    && ulen == 2 * Fragments(ch[..k]) + 2
    && (ulen <= tlen ==> j + 1 == ulen <= tbl.Length && Covers(tbl[1..j], ch[..k]))
  }

  /** Items outside the room there is are as before, but for the first one. */
  ghost predicate Beyond(tlen: nat, was: seq<nat>, now: seq<nat>) {
    |now| == |was| && forall i | 0 < i < |was| && tlen <= i :: now[i] == was[i]
  }

  /** Put one more run into the table. */
  method PutRun(tbl: array<nat>, tlen: nat, j: nat, ulen: nat, ncl: nat, tcl: nat, ghost ch: seq<nat>, ghost k: nat)
    returns (j': nat)
    requires tlen <= tbl.Length && 0 < ncl && k + ncl <= |ch| && tcl == ch[k] && Run(ch, k, k + ncl)
    requires (k > 0 ==> ch[k] != ch[k - 1] + 1) && 2 <= ulen && MapSoFar(tbl, tlen, j, ulen - 2, ch, k) && 4 <= ulen
    modifies tbl
    ensures MapSoFar(tbl, tlen, j', ulen, ch, k + ncl)
    ensures Beyond(tlen, old(tbl[..]), tbl[..])
  {
    FragmentMore(ch, k, ncl);
    j' := j;
    if ulen <= tlen {
      ghost var m := tbl[1..j];
      tbl[j] := ncl;
      tbl[j + 1] := tcl;
      j' := j + 2;
      CoversMore(m, ch[..k], ch[k..k + ncl]);
      assert tbl[1..j'] == m + [ncl, tcl];
      assert ch[..k] + ch[k..k + ncl] == ch[..k + ncl];
    }
  }

  /** One turn of the loop of f_lseek(CREATE_LINKMAP): the run from cluster number k, tcl, up to number k'. */
  method MapRun(obj: FfObj, tbl: array<nat>, tlen: nat, j: nat, ulen: nat, tcl: nat, ghost ch: seq<nat>, ghost k: nat)
    returns (res: FResult, j': nat, cl: nat, ghost k': nat)
    requires Placed(obj) && obj.chain == ch && k < |ch| && tcl == ch[k] && (k > 0 ==> ch[k] != ch[k - 1] + 1)
    requires tlen <= tbl.Length && 4 <= ulen && MapSoFar(tbl, tlen, j, ulen - 2, ch, k)
    modifies tbl, obj.fs`wFlag, obj.fs`winSect, obj.fs.win, obj.fs.disk`sec, obj.fs.disk`script
    ensures Placed(obj) && (Followed(obj) <==> old(Followed(obj))) && (Mappable(obj) <==> old(Mappable(obj)))
    ensures res.OK? ==> k < k' <= |ch| && MapSoFar(tbl, tlen, j', ulen, ch, k')
    ensures res.OK? && k' < |ch| ==> cl == ch[k'] < obj.fs.nFatEnt && ch[k'] != ch[k' - 1] + 1
    ensures res.OK? && k' == |ch| ==> cl >= obj.fs.nFatEnt && Mappable(obj)
    ensures res.OK? || res.DiskErr? || (res.IntErr? && !Mappable(obj))
    ensures Beyond(tlen, old(tbl[..]), tbl[..])
    ensures MetaStep(obj.fs, old(obj.fs.Logical()), old(obj.fs.winSect), |old(obj.fs.disk.script)| == 0)
    ensures obj.fs.Table() == old(obj.fs.Table()) && Used(obj.fs) == old(Used(obj.fs))
    ensures |old(obj.fs.disk.script)| == 0 ==> |obj.fs.disk.script| == 0 && !res.DiskErr?
  {
    hide *;
    StartOf(obj);
    j', k' := j, k;
    var ncl;
    res, cl, ncl := FollowRun(obj, tcl, k);
    StartOf(obj);
    BeyondSelf(tlen, tbl[..]);
    if res.OK? {
      j' := PutRun(tbl, tlen, j, ulen, ncl, tcl, ch, k);
      k' := k + ncl;
    }
  }

  lemma BeyondSelf(tlen: nat, t: seq<nat>)
    ensures Beyond(tlen, t, t)
  {
  }

  lemma BeyondTwice(tlen: nat, t: seq<nat>, t': seq<nat>, t'': seq<nat>)
    requires Beyond(tlen, t, t') && Beyond(tlen, t', t'')
    ensures Beyond(tlen, t, t'')
  {
  }

  /** f_lseek(CREATE_LINKMAP): store the map of the object in the table, whose first item is the room there
      is.  On NotEnoughCore that item is the room needed. */
  method CreateLinkMap(obj: FfObj, tbl: array<nat>) returns (res: FResult)
    requires Placed(obj) && 1 <= tbl.Length && tbl[0] <= tbl.Length
    modifies tbl, obj.fs`wFlag, obj.fs`winSect, obj.fs.win, obj.fs.disk`sec, obj.fs.disk`script
    ensures Placed(obj) && (Followed(obj) <==> old(Followed(obj))) && (Mappable(obj) <==> old(Mappable(obj)))
    ensures res.OK? ==> MapOf(tbl, obj.chain) && tbl[0] <= old(tbl[0])
    ensures res.NotEnoughCore? ==> tbl[0] == 2 * Fragments(obj.chain) + 2 > old(tbl[0])
    ensures res.OK? || res.NotEnoughCore? || res.DiskErr? || (res.IntErr? && !Mappable(obj))
    ensures res.OK? || res.NotEnoughCore? ==> Mappable(obj)
    ensures Beyond(old(tbl[0]), old(tbl[..]), tbl[..])
    ensures MetaStep(obj.fs, old(obj.fs.Logical()), old(obj.fs.winSect), |old(obj.fs.disk.script)| == 0)
    ensures obj.fs.Table() == old(obj.fs.Table()) && Used(obj.fs) == old(Used(obj.fs))
    ensures |old(obj.fs.disk.script)| == 0 ==> !res.DiskErr?
  {
    hide *;
    var tlen: nat, j: nat, ulen: nat, cl: nat := tbl[0], 1, 2, obj.sClust;
    ghost var ch, k := obj.chain, 0;
    StartOf(obj);
    ghost var fs, l, w, q := obj.fs, obj.fs.Logical(), obj.fs.winSect, |obj.fs.disk.script| == 0;
    NoneMapped(tbl, ch);
    AtEnd(obj);
    MetaStart(fs, q);
    BeyondSelf(tlen, tbl[..]);
    if cl != 0 {
      while true
        invariant Placed(obj) && (Followed(obj) <==> old(Followed(obj))) && (Mappable(obj) <==> old(Mappable(obj)))
        invariant 0 <= k < |ch| && cl == ch[k] && (k > 0 ==> ch[k] != ch[k - 1] + 1) && 2 <= ulen
        invariant MapSoFar(tbl, tlen, j, ulen, ch, k) && Beyond(tlen, old(tbl[..]), tbl[..])
        invariant MetaStep(fs, l, w, q) && fs.Valid()
        invariant fs.Table() == old(obj.fs.Table()) && Used(fs) == old(Used(obj.fs))
        decreases |ch| - k
      {
        MetaFacts(fs, l, w, q);
        ghost var m, v, p, was := fs.Logical(), fs.winSect, |fs.disk.script| == 0, tbl[..];
        ulen := ulen + 2;
        res, j, cl, k := MapRun(obj, tbl, tlen, j, ulen, cl, ch, k);
        MetaTwice(fs, l, w, q, m, v, p);
        MetaFacts(fs, l, w, q);
        BeyondTwice(tlen, old(tbl[..]), was, tbl[..]);
        if !res.OK? {
          return;
        }
        if cl >= obj.fs.nFatEnt {
          break;
        }
      }
    }
    ghost var was := tbl[..];
    res := CloseMap(tbl, tlen, j, ulen, ch, k);
    BeyondTwice(tlen, old(tbl[..]), was, tbl[..]);
  }

  /** f_lseek(CREATE_LINKMAP) for an open file: the last fragment is written first.  The map can be made just when
      the end mark is not the number after the last cluster, and the file is not one of size 0 that has clusters on
      an exFAT volume. */
  method CreateFor(fp: Fil, tbl: array<nat>) returns (res: FResult)
    requires fp.Usable() && fp.err.OK? && 1 <= tbl.Length && tbl[0] <= tbl.Length
    modifies tbl, fp`err, fp.obj`nFrag
    modifies fp.obj.fs`wFlag, fp.obj.fs`winSect, fp.obj.fs.win, fp.obj.fs.disk`sec, fp.obj.fs.disk`script
    ensures res.OK? || res.NotEnoughCore? || res.IntErr? || res.DiskErr?
    ensures res.OK? ==> MapOf(tbl, fp.obj.chain)
    ensures res.NotEnoughCore? ==> tbl[0] == 2 * Fragments(fp.obj.chain) + 2 > old(tbl[0])
    ensures !res.DiskErr? ==> (res.IntErr? <==> !Mappable(fp.obj))
    ensures !res.DiskErr? ==>
              (Followed(fp.obj) <==> (fp.obj.fs.fsType.EXFAT? && fp.obj.chain != [] ==> fp.obj.objSize > 0))
    ensures Beyond(old(tbl[0]), old(tbl[..]), tbl[..])
    ensures fp.Usable() && fp.Content() == old(fp.Content()) && fp.Since(old(fp.Now()))
    ensures if res.OK? || res.NotEnoughCore? then fp.err.OK? else fp.err.OK? || fp.err == res
    ensures res.IntErr? ==> fp.err.IntErr?
    ensures old(fp.Quiet()) ==> !res.DiskErr?
  {
    hide *;
    fp.ReadyFacts();
    fp.QuietIs();
    res := OK;
    ghost var g, fs := fp.Now(), fp.obj.fs;
    fp.NowSince();
    fp.ContentIs();
    BeyondSelf(tbl[0], tbl[..]);
    if fp.obj.fs.fsType.EXFAT? {
      res := fp.Settle(g);
      if !res.OK? {
        fp.ReadyIs();
        fp.ContentIs();
        return;
      }
    }
    fp.CoreFacts();
    SettledIsFollowed(fp, fp.fptr);
    ghost var l, w, q, u, t := fs.Logical(), fs.winSect, |fs.disk.script| == 0, Used(fs), fs.Table();
    fp.QuietIs();
    fp.SinceParts(g);
    PlacedIs(fp.obj);
    res := CreateLinkMap(fp.obj, tbl);
    StartOf(fp.obj);
    MetaFacts(fs, l, w, q);
    fp.CoreSince(l, w, q, u, t, fs.freeClst, g);
    PlacedIs(fp.obj);
    fp.ReadyIs();
    fp.ContentIs();
    if res.IntErr? || res.DiskErr? {
      fp.err := res;
    }
  }

  /** The end of the table, or the room needed for it. */
  method CloseMap(tbl: array<nat>, tlen: nat, j: nat, ulen: nat, ghost ch: seq<nat>, ghost k: nat)
    returns (res: FResult)
    requires 1 <= tbl.Length && tlen <= tbl.Length && k == |ch| && MapSoFar(tbl, tlen, j, ulen, ch, k)
    modifies tbl
    ensures res == if ulen <= tlen then OK else NotEnoughCore
    ensures res.OK? ==> MapOf(tbl, ch)
    ensures tbl[0] == ulen == 2 * Fragments(ch) + 2
    ensures Beyond(tlen, old(tbl[..]), tbl[..])
  {
    assert ch[..k] == ch;
    ghost var m := if ulen <= tlen then tbl[1..j] else [];
    tbl[0] := ulen;
    if ulen <= tlen {
      tbl[j] := 0;
      assert tbl[1..j] == m;
      res := OK;
    } else {
      res := NotEnoughCore;
    }
  }

  lemma NoneMapped(tbl: array<nat>, ch: seq<nat>)
    requires 1 <= tbl.Length && tbl[0] <= tbl.Length
    ensures MapSoFar(tbl, tbl[0], 1, 2, ch, 0)
  {
    assert 2 <= tbl.Length ==> tbl[1..1] == [];
  }

  lemma AtEnd(obj: FfObj)
    requires Placed(obj)
    ensures obj.chain == [] ==> Mappable(obj)
  {
  }

  lemma PlacedIs(obj: FfObj)
    ensures Placed(obj) <==> Followed(obj) || Sizeless(obj)
    ensures Mappable(obj) ==> Followed(obj)
  {
  }

  lemma StartOf(obj: FfObj)
    requires Placed(obj)
    ensures obj.Linked() && obj.fs.Valid() && obj.fs.Shape()
    ensures if obj.chain == [] then obj.sClust == 0 else obj.sClust == obj.chain[0] != 0
    ensures forall i | 0 <= i < |obj.chain| :: 2 <= obj.chain[i] < obj.fs.nFatEnt
  {
  }
}
