/** Several open files on one volume: what is done to one of them leaves the others as they are. */
module Sharing {
  import opened Disks
  import opened Volumes
  import opened Chains
  import opened ObjChains
  import opened Objects
  import opened Layout
  import opened Caches
  import opened Contents
  import opened Files
  import opened Runs

  // ---------------------------------------------------------------- what an operation leaves to others

  /** Every sector that holds neither FAT nor bitmap nor belongs to the file or a free cluster is as before, but for
      those in x. */
  ghost predicate OthersKeptBut(fs: FatFs, g: Start, l: seq<Sector>, x: set<int>)
    requires fs.Shape()
  {
    && |g.u| == fs.nFatEnt && |g.l| == |l| == fs.disk.size
    && forall s | Home(fs, s) && Away(fs, s, g.u, g.ch) && s !in x :: l[s] == g.l[s]
  }

  /** What was done to one file since g: it took free clusters and gave back its own, and has the clusters ch now;
      but for the sectors in x, nothing else changed. */
  ghost predicate Leaves(fs: FatFs, g: Start, u: seq<bool>, ch: seq<nat>, l: seq<Sector>, t: seq<nat>, w: nat,
    x: set<int>)
    requires fs.Shape()
  {
    Stays(g, u, ch) && OthersKeptBut(fs, g, l, x) && LinksKept(g, t) && (Aside(fs, g.w, w) || w in x)
  }

  lemma SinceLeaves(fp: Fil, g: Start, x: set<int>)
    requires fp.obj.fs.Valid() && fp.Since(g)
    ensures fp.obj.fs.Shape()
    ensures var h := fp.Now(); Leaves(fp.obj.fs, g, h.u, h.ch, h.l, h.t, h.w, x)
  {
    fp.SinceParts(g);
  }

  /** The sectors x are in no cluster of the file's and in no free one. */
  ghost predicate AllAway(fs: FatFs, x: set<int>, u: seq<bool>, ch: seq<nat>)
    requires |u| == fs.nFatEnt
  {
    forall s | s in x :: Away(fs, s, u, ch)
  }

  /** Clusters in use that are not the file's stay in use, and are not the file's. */
  lemma StillOwned(fs: FatFs, g: Start, ch: seq<nat>, u: seq<bool>, ch0: seq<nat>)
    requires fs.Shape() && |g.u| == fs.nFatEnt && Owned(fs, g.u, ch) && Owned(fs, g.u, g.ch) && Apart(ch, g.ch)
    requires Spared(g, u, ch0) && InTable(fs.nFatEnt, ch)
    ensures Owned(fs, u, ch) && Apart(ch, ch0)
  {
    forall c | c in ch
      ensures u[c] && c !in ch0
    {
      assert c !in g.ch && 2 <= c;
    }
  }

  /** A sector away from two files stays away from the one that nothing is done to. */
  lemma BothAway(fs: FatFs, g: Start, ch: seq<nat>, u: seq<bool>, ch0: seq<nat>, s: int)
    requires |g.u| == fs.nFatEnt && Away(fs, s, g.u, ch) && Away(fs, s, g.u, g.ch) && Spared(g, u, ch0)
    ensures Away(fs, s, u, ch)
  {
    forall c | 2 <= c < fs.nFatEnt && InCluster(fs, s, c)
      ensures u[c] && c !in ch
    {
      assert g.u[c] && c !in g.ch;
    }
  }

  lemma StillAside(fs: FatFs, g: Start, ch: seq<nat>, u: seq<bool>, ch0: seq<nat>, w: nat, x: set<int>)
    requires fs.Shape() && |g.u| == fs.nFatEnt && Away(fs, g.w, g.u, ch) && Away(fs, g.w, g.u, g.ch)
    requires AllAway(fs, x, g.u, ch) && AllAway(fs, x, g.u, g.ch)
    requires Spared(g, u, ch0) && Owned(fs, u, ch) && InTable(fs.nFatEnt, ch) && (Aside(fs, g.w, w) || w in x)
    ensures Away(fs, w, u, ch)
  {
    if w == g.w || w in x {
      BothAway(fs, g, ch, u, ch0, w);
    } else {
      MetaAway(fs, w, u, ch);
    }
  }

  lemma SectorStays(fs: FatFs, g: Start, ch: seq<nat>, l: seq<Sector>, s: nat, x: set<int>)
    requires fs.Shape() && OthersKeptBut(fs, g, l, x) && InTable(fs.nFatEnt, ch) && Owned(fs, g.u, ch)
    requires Apart(ch, g.ch) && s in Sectors(fs, ch) && AllAway(fs, x, g.u, ch)
    ensures s < |l| == |g.l| && l[s] == g.l[s]
  {
    SectorInHome(fs, g.u, ch, s);
    OwnSector(fs, g, ch, s);
    if s in x {
      NotInWindow(fs, s, g.u, ch, s);
    }
  }

  /** What a file holds stays, whatever was done to another one; its buffer is one of its own sectors, or it counts
      for nothing. */
  lemma HoldingStays(fs: FatFs, g: Start, ch: seq<nat>, data: seq<Sector>, ca: Cache, u: seq<bool>, ch0: seq<nat>,
    l: seq<Sector>, t: seq<nat>, w: nat, x: set<int>)
    requires Holding(fs, ch, g.u, g.l, g.w, data, ca) && Owned(fs, g.u, ch) && Owned(fs, g.u, g.ch)
    requires Apart(ch, g.ch) && Away(fs, g.w, g.u, g.ch) && AllAway(fs, x, g.u, ch) && AllAway(fs, x, g.u, g.ch)
    requires Leaves(fs, g, u, ch0, l, t, w, x) && (ca.sect == 0 || ca.sect in Sectors(fs, ch))
    ensures Holding(fs, ch, u, l, w, data, ca)
    ensures Owned(fs, u, ch) && Apart(ch, ch0)
  {
    hide Sectors, Owned, Away, OthersKeptBut, Spared, Aside, AllAway, Apart, LinksKept;
    StaysSpares(g, u, ch0);
    StillOwned(fs, g, ch, u, ch0);
    StillAside(fs, g, ch, u, ch0, w, x);
    KeptSize(fs, g, u, ch0, l, x);
    forall k | 0 <= k < |data|
      ensures Sectors(fs, ch)[k] < |l| && data[k] == Cached(l, ca, Sectors(fs, ch)[k])
    {
      SectorStays(fs, g, ch, l, Sectors(fs, ch)[k], x);
    }
    if ca.sect != 0 {
      SectorStays(fs, g, ch, l, ca.sect, x);
    }
  }

  lemma KeptSize(fs: FatFs, g: Start, u: seq<bool>, ch0: seq<nat>, l: seq<Sector>, x: set<int>)
    requires fs.Shape() && OthersKeptBut(fs, g, l, x) && Spared(g, u, ch0)
    ensures |l| == fs.disk.size && |u| == fs.nFatEnt
  {
  }

  lemma StaysSpares(g: Start, u: seq<bool>, ch: seq<nat>)
    requires Stays(g, u, ch)
    ensures Spared(g, u, ch)
  {
  }

  // ---------------------------------------------------------------- one operation beside another open file

  /** Two open files: the objects are distinct, and the chains have no cluster in common. */
  ghost predicate Beside(a: Fil, b: Fil)
    reads a.obj`chain, b.obj`chain
  {
    a != b && a.obj != b.obj && a.buf != b.buf && Apart(a.obj.chain, b.obj.chain)
  }

  /** What is not on the volume is as in an open file. */
  ghost predicate Standing(o: Fil)
    reads o, o.obj
  {
    && o.buf.Length == 512 && o.buf != o.obj.fs.win && 0 < o.obj.fs.cSize && o.sect < o.obj.fs.disk.size
    && o.obj.sClust == (if o.obj.chain == [] then 0 else o.obj.chain[0])
    && (o.obj.chain == [] ==> o.obj.Status().nFrag == 0 && o.obj.Status().stat != 3)
    && o.obj.objSize <= |o.data| * 512
    && o.Positioned(o.fptr) && o.Sized(o.fptr) && (o.dirty ==> o.modified)
  }

  /** The file o is open in the state g, in which g.ch are clusters of another one. */
  ghost predicate OpenAt(o: Fil, g: Start)
    reads o, o.obj, o.buf
  {
    && Standing(o) && o.obj.fs.Shape() && |g.u| == |g.t| == o.obj.fs.nFatEnt
    && (o.obj.chain != [] ==> Holds(g.t, o.obj.Status(), o.obj.chain))
    && Owned(o.obj.fs, g.u, o.obj.chain) && Apart(o.obj.chain, g.ch)
    && Holding(o.obj.fs, o.obj.chain, g.u, g.l, g.w, o.data, o.Buffer())
  }

  /** What a caller sees of the file o. */
  ghost function Bare(o: Fil): Plain
    requires o.obj.objSize <= |o.data| * 512
    reads o`data, o`fptr, o.obj`objSize
  {
    Plain(BytesOf(o.data, o.obj.objSize), o.fptr)
  }

  lemma OpenNow(fp: Fil, o: Fil)
    requires fp.Core() && o.Usable() && Beside(o, fp) && o.obj.fs == fp.obj.fs
    ensures OpenAt(o, fp.Now()) && o.obj.objSize <= |o.data| * 512 && Visible(o) == Bare(o)
  {
    hide Sectors, Owned, Away, Holds, BytesOf, FatFs.Logical, FatFs.Table, Used, Holding, Apart;
  }

  /** The same for a file on its own. */
  lemma OpenAlone(o: Fil)
    requires o.Usable()
    ensures OpenAt(o, o.Now().(ch := [])) && o.obj.objSize <= |o.data| * 512 && Visible(o) == Bare(o)
  {
    hide Sectors, Owned, Away, Holds, BytesOf, FatFs.Logical, FatFs.Table, Used, Holding;
  }

  lemma StandingFacts(o: Fil)
    requires Standing(o)
    ensures o.buf.Length == 512 && o.buf != o.obj.fs.win && 0 < o.obj.fs.cSize && o.sect < o.obj.fs.disk.size
    ensures o.obj.sClust == (if o.obj.chain == [] then 0 else o.obj.chain[0])
    ensures o.obj.chain == [] ==> o.obj.Status().nFrag == 0 && o.obj.Status().stat != 3
    ensures o.obj.objSize <= |o.data| * 512
    ensures o.Positioned(o.fptr) && o.Sized(o.fptr) && (o.dirty ==> o.modified)
  {
    hide Fil.Positioned, Fil.Sized;
  }

  lemma OpenFacts(o: Fil, g: Start)
    requires OpenAt(o, g)
    ensures Standing(o) && o.obj.fs.Shape() && |g.u| == |g.t| == o.obj.fs.nFatEnt
    ensures o.obj.chain != [] ==> Holds(g.t, o.obj.Status(), o.obj.chain)
    ensures Owned(o.obj.fs, g.u, o.obj.chain) && Apart(o.obj.chain, g.ch)
    ensures Holding(o.obj.fs, o.obj.chain, g.u, g.l, g.w, o.data, o.Buffer())
  {
    hide Standing, Owned, Holding, Apart, Holds, FatFs.Shape;
  }

  /** The links of another file stay. */
  lemma LinksOfOther(fs: FatFs, g: Start, a: Alloc, ch: seq<nat>, t: seq<nat>)
    requires fs.Shape() && |g.u| == fs.nFatEnt && LinksKept(g, t) && Holds(g.t, a, ch) && InTable(fs.nFatEnt, ch)
    requires Owned(fs, g.u, ch) && Apart(ch, g.ch)
    ensures Holds(t, a, ch)
  {
    hide Holds;
    forall c | c in ch
      ensures 2 <= c < |g.t| && t[c] == g.t[c]
    {
    }
    HoldsFrame(g.t, t, a, ch);
  }

  /** The buffer of a file stands for nothing, or for one of the file's own sectors. */
  lemma BufferOwn(o: Fil)
    requires o.Own() && 0 < o.obj.fs.cSize
    ensures o.Buffer().sect == 0 || o.Buffer().sect in Sectors(o.obj.fs, o.obj.chain)
  {
  }

  /** The buffer of a file that others may have changed unnoticed stands for nothing. */
  lemma BufferForgotten(o: Fil)
    requires !o.tracked && !o.dirty
    ensures o.Buffer().sect == 0
  {
  }

  lemma LeavesFacts(fs: FatFs, g: Start, u: seq<bool>, ch: seq<nat>, l: seq<Sector>, t: seq<nat>, w: nat, x: set<int>)
    requires fs.Shape() && Leaves(fs, g, u, ch, l, t, w, x)
    ensures Stays(g, u, ch) && LinksKept(g, t)
  {
  }

  /** An open file stays open, with its content and its pointer, whatever succeeds on another one (which left the
      volume in the state h), as long as the buffer is only relied on if it is the file's own. */
  lemma StaysOpen(o: Fil, g: Start, h: Start, x: set<int>)
    requires o.obj.fs.Valid() && OpenAt(o, g) && (o.tracked || o.dirty ==> o.Own())
    requires h.u == Used(o.obj.fs) && h.l == o.obj.fs.Logical() && h.t == o.obj.fs.Table() && h.w == o.obj.fs.winSect
    requires Owned(o.obj.fs, g.u, g.ch) && Away(o.obj.fs, g.w, g.u, g.ch)
    requires AllAway(o.obj.fs, x, g.u, g.ch) && AllAway(o.obj.fs, x, g.u, o.obj.chain)
    requires o.obj.fs.Shape() && Leaves(o.obj.fs, g, h.u, h.ch, h.l, h.t, h.w, x)
    ensures o.Usable() && Visible(o) == Bare(o) && Apart(o.obj.chain, h.ch)
  {
    hide *;
    var fs, ch := o.obj.fs, o.obj.chain;
    OpenFacts(o, g);
    StandingFacts(o);
    if o.tracked || o.dirty {
      BufferOwn(o);
    } else {
      BufferForgotten(o);
    }
    LeavesFacts(fs, g, h.u, h.ch, h.l, h.t, h.w, x);
    HoldingStays(fs, g, ch, o.data, o.Buffer(), h.u, h.ch, h.l, h.t, h.w, x);
    if ch != [] {
      HoldFacts(fs, ch, g.u, g.l, g.w, o.data, o.Buffer());
      LinksOfOther(fs, g, o.obj.Status(), ch, h.t);
    }
    DescribesIs(o.obj);
    o.CoreIs();
    o.ReadyIs();
    VisibleIs(o);
  }

  lemma DescribesIs(obj: FfObj)
    requires obj.fs.Valid() && obj.fs.Shape() && Owned(obj.fs, Used(obj.fs), obj.chain)
    requires obj.chain != [] ==> Holds(obj.fs.Table(), obj.Status(), obj.chain)
    ensures obj.Describes(obj.Status(), obj.chain)
  {
    hide Holds, Owned, FatFs.Table, FatFs.Logical;
  }

  lemma VisibleIs(o: Fil)
    requires o.Core() && o.obj.objSize <= |o.data| * 512
    ensures Visible(o) == Bare(o)
  {
    hide BytesOf, Fil.Core;
  }

  /** A clean buffer may be left out of account. */
  lemma HoldForget(fs: FatFs, ch: seq<nat>, u: seq<bool>, l: seq<Sector>, w: nat, data: seq<Sector>, ca: Cache)
    requires Holding(fs, ch, u, l, w, data, ca) && !ca.dirty
    ensures Holding(fs, ch, u, l, w, data, Cache(0, false, ca.buf))
  {
  }

  /** From here on nothing is known of a clean buffer with a sector that is not the file's. */
  ghost method Forget(o: Fil)
    requires o.Usable()
    modifies o`tracked
    ensures o.Usable() && Visible(o) == old(Visible(o)) && o.tracked == old(o.tracked && o.Own())
  {
    hide *;
    o.ReadyFacts();
    o.CoreFacts();
    o.BufferIs();
    o.OwnIs();
    VisibleIs(o);
    if !o.Own() {
      o.LinkedIs();
      HoldForget(o.obj.fs, o.obj.chain, Used(o.obj.fs), o.obj.fs.Logical(), o.obj.fs.winSect, o.data, o.Buffer());
      o.tracked := false;
      o.BufferIs();
      o.CoreIs();
      o.ReadyIs();
      VisibleIs(o);
    }
  }
}
