/** Whole runs of operations on one open file, against a file that is nothing but its bytes and a pointer. */
module Runs {
  import opened Disks
  import opened Volumes
  import opened Bitmaps
  import opened Objects
  import opened Contents
  import opened Files

  datatype Op = ReadOp(btr: nat) | WriteOp(bytes: seq<byte>) | SeekOp(ofs: nat) | TruncateOp | SyncOp

  /** What a caller sees of an operation: the bytes read, how many were written, or that it was denied. */
  datatype Reply = Reply(got: seq<byte>, count: nat, denied: bool)

  const NOTHING: Reply := Reply([], 0, false)
  const DENIED: Reply := Reply([], 0, true)

  datatype Plain = Plain(bytes: seq<byte>, pos: nat)

  /** How a file was opened, and on what type of volume. */
  datatype Mode = Mode(exfat: bool, reading: bool, writing: bool)

  /** A FAT volume has no file of 4 GiB or more. */
  ghost function Limit(exfat: bool, ofs: nat): nat {
    if exfat then ofs else Smaller(ofs, 0xFFFF_FFFF)
  }

  /** Where a seek to ofs in a file of n bytes is to end: without the right to write, inside the file. */
  ghost function Target(m: Mode, ofs: nat, n: nat): nat {
    if m.writing then Limit(m.exfat, ofs) else Smaller(Limit(m.exfat, ofs), n)
  }

  /** The file was not opened for the operation. */
  predicate Denies(m: Mode, op: Op) {
    match op
    case ReadOp(_) => !m.reading
    case WriteOp(_) => !m.writing
    case TruncateOp => !m.writing
    case _ => false
  }

  /** Operation op takes the plain file p to q, with outcome o.  When the volume has no room (full) a write or a
      seek may stop early, but not before the end of the file. */
  ghost predicate Does(m: Mode, p: Plain, op: Op, o: Reply, q: Plain, full: bool)
    requires p.pos <= |p.bytes|
  {
    && o.denied == Denies(m, op)
    && if o.denied then q == p && o == DENIED else Works(m, p, op, o, q, full)
  }

  /** The same for an operation that is not denied. */
  ghost predicate Works(m: Mode, p: Plain, op: Op, o: Reply, q: Plain, full: bool)
    requires p.pos <= |p.bytes|
  {
    match op
    case ReadOp(n) =>
      && q == Plain(p.bytes, p.pos + o.count)
      && o.count == Smaller(n, |p.bytes| - p.pos)
      && o.got == p.bytes[p.pos..p.pos + o.count]
    case WriteOp(w) =>
      && o.count <= |w| && q == Plain(Overwrite(p.bytes, p.pos, w[..o.count]), p.pos + o.count)
      && var target := Larger(p.pos, Limit(m.exfat, p.pos + |w|));
        q.pos <= target && (q.pos != target ==> full && q.pos == |q.bytes|)
    case SeekOp(ofs) =>
      && |q.bytes| == Larger(|p.bytes|, q.pos) && q.bytes[..|p.bytes|] == p.bytes
      && var target := Target(m, ofs, |p.bytes|);
        q.pos <= target && (q.pos != target ==> full && |p.bytes| <= q.pos)
    case TruncateOp => q == Plain(p.bytes[..p.pos], p.pos)
    case SyncOp => q == p
  }

  function ModeOf(fp: Fil): Mode {
    Mode(fp.obj.fs.fsType.EXFAT?, fp.forReading, fp.forWriting)
  }

  ghost function Visible(fp: Fil): Plain
    requires fp.Core()
    reads fp`fptr, fp`sect, fp`dirty, fp`tracked, fp`data, fp.buf
    reads fp.obj`stat, fp.obj`sClust, fp.obj`nCont, fp.obj`nFrag, fp.obj`chain, fp.obj`objSize
    reads fp.obj.fs`wFlag, fp.obj.fs`winSect, fp.obj.fs.win, fp.obj.fs.disk`sec
  {
    Plain(fp.Content(), fp.fptr)
  }

  /** Cutting the file off at a sector border may leave its buffer with a sector behind the cut. */
  predicate Loosens(p: Plain, op: Op, o: Reply) {
    op.TruncateOp? && !o.denied && p.pos < |p.bytes| && p.pos % 512 == 0
  }

  /** A seek made the file longer. */
  predicate Lengthened(p: Plain, op: Op, q: Plain) {
    op.SeekOp? && |q.bytes| > |p.bytes|
  }

  /** The operation looks at the buffer. */
  predicate Looks(op: Op) {
    op.ReadOp? || op.WriteOp?
  }

  /** What becomes of the mark for a changed file: an operation leaves it set, and a write sets it. */
  predicate Marks(was: bool, op: Op, o: Reply, now: bool) {
    was || (op.WriteOp? && !o.denied) ==> now
  }

  /** Where the pointer and the end of the file come to be, whatever the bytes. */
  ghost predicate Moves(m: Mode, p: Plain, op: Op, o: Reply, q: Plain, full: bool) {
    && o.denied == Denies(m, op)
    && if o.denied then q == p else match op
       case ReadOp(n) =>
         && p.pos <= |p.bytes| && o.count == Smaller(n, |p.bytes| - p.pos)
         && q == Plain(p.bytes, p.pos + o.count)
       case WriteOp(w) =>
         && o.count <= |w| && q.pos == p.pos + o.count && |q.bytes| == Larger(|p.bytes|, q.pos)
         && var target := Larger(p.pos, Limit(m.exfat, p.pos + |w|));
           q.pos <= target && (q.pos != target ==> full && q.pos == |q.bytes|)
       case _ => p.pos <= |p.bytes| && Works(m, p, op, o, q, full)
  }

  method DoRead(fp: Fil, n: nat) returns (res: FResult, o: Reply)
    requires fp.Usable() && fp.err.OK?
    modifies fp, fp.buf, fp.obj, fp.obj.fs, fp.obj.fs.win, fp.obj.fs.disk
    ensures fp.obj.fs.Valid() && OthersKept(fp.obj.fs, old(fp.Now()), fp.obj.fs.Logical())
    ensures res.OK? ==> fp.Usable() && fp.err.OK? && fp.Since(old(fp.Now()))
    ensures res.OK? && old(fp.Clear()) ==> Does(ModeOf(fp), old(Visible(fp)), ReadOp(n), o, Visible(fp), false)
    ensures res.OK? ==> Moves(ModeOf(fp), old(Visible(fp)), ReadOp(n), o, Visible(fp), false)
    ensures res.OK? || res.DiskErr?
    ensures res.OK? && old(fp.Own()) ==> fp.Own()
    ensures (old(fp.tracked) ==> fp.tracked) && fp.modified == old(fp.modified)
    ensures res.OK? && old(fp.Clear()) ==> fp.Clear()
    ensures res.OK? && old(fp.Lean()) ==> fp.Lean()
    ensures old(fp.Quiet()) ==> fp.Quiet() && !res.DiskErr?
  {
    hide Fil.Core, Fil.Usable, Fil.Clear, Fil.Positioned, Fil.Sized, OthersKept, Fil.Since, FatFs.Valid, FatFs.Logical,
      Used, BytesOf, Overwrite, Fil.BadEntry, Fil.NoRoom, Fil.Lean;
    o := NOTHING;
    var buff := new byte[n];
    var br;
    res, br := fp.Read(buff, n);
    if res.Denied? {
      res, o := OK, DENIED;
    } else if res.OK? {
      o := Reply(buff[..br], br, false);
    }
  }

  method DoWrite(fp: Fil, w: seq<byte>) returns (res: FResult, o: Reply, ghost full: bool)
    requires fp.Usable() && fp.err.OK?
    requires |w| < 0x1_0000_0000
    modifies fp, fp.buf, fp.obj, fp.obj.fs, fp.obj.fs.win, fp.obj.fs.disk
    ensures fp.obj.fs.Valid() && OthersKept(fp.obj.fs, old(fp.Now()), fp.obj.fs.Logical())
    ensures res.OK? ==> fp.Usable() && fp.err.OK? && fp.Since(old(fp.Now()))
    ensures res.OK? && old(fp.Clear()) ==> Does(ModeOf(fp), old(Visible(fp)), WriteOp(w), o, Visible(fp), full)
    ensures res.OK? ==> Moves(ModeOf(fp), old(Visible(fp)), WriteOp(w), o, Visible(fp), full)
    ensures res.OK? && full ==> fp.NoRoom()
    ensures res.OK? || res.DiskErr? || (res.IntErr? && old(fp.BadEntry()))
    ensures res.OK? && old(fp.Own()) ==> fp.Own()
    ensures (old(fp.tracked) ==> fp.tracked) && (res.OK? && (old(fp.modified) || !o.denied) ==> fp.modified)
    ensures res.OK? && old(fp.Clear()) ==> fp.Clear()
    ensures res.OK? && old(fp.Lean()) ==> fp.Lean()
    ensures old(fp.Quiet()) ==> fp.Quiet() && !res.DiskErr?
  {
    hide Fil.Core, Fil.Usable, Fil.Clear, Fil.Positioned, Fil.Sized, OthersKept, Fil.Since, FatFs.Valid, FatFs.Logical,
      Used, BytesOf, Overwrite, Fil.BadEntry, Fil.NoRoom, Fil.Lean;
    o, full := NOTHING, false;
    fp.PointerInFile();
    ghost var p := fp.fptr;
    fp.LeanIs();
    var bw;
    res, bw := fp.Write(w, |w|);
    if fp.err.OK? {
      fp.LeanIs();
    }
    if res.Denied? {
      res, o := OK, DENIED;
    } else if res.OK? {
      o, full := Reply([], bw, false), bw < fp.Acceptable(|w|, p);
    }
  }

  method DoSeek(fp: Fil, ofs: nat) returns (res: FResult, ghost full: bool)
    requires fp.Usable() && fp.err.OK?
    modifies fp, fp.buf, fp.obj, fp.obj.fs, fp.obj.fs.win, fp.obj.fs.disk
    ensures fp.obj.fs.Valid() && OthersKept(fp.obj.fs, old(fp.Now()), fp.obj.fs.Logical())
    ensures res.OK? ==> fp.Usable() && fp.err.OK? && fp.Since(old(fp.Now()))
    ensures res.OK? ==> Does(ModeOf(fp), old(Visible(fp)), SeekOp(ofs), NOTHING, Visible(fp), full)
    ensures res.OK? && full ==> fp.NoRoom()
    ensures res.OK? || res.DiskErr? || (res.IntErr? && old(fp.BadEntry()))
    ensures res.OK? && old(fp.Own()) ==> fp.Own()
    ensures (old(fp.tracked) ==> fp.tracked) && (res.OK? && old(fp.modified) ==> fp.modified)
    ensures res.OK? && old(fp.Clear()) && !Lengthened(old(Visible(fp)), SeekOp(ofs), Visible(fp)) ==> fp.Clear()
    ensures res.OK? && old(fp.Lean()) ==> fp.Lean()
    ensures old(fp.Quiet()) ==> fp.Quiet() && !res.DiskErr?
  {
    hide Fil.Core, Fil.Usable, Fil.Clear, Fil.Positioned, Fil.Sized, OthersKept, Fil.Since, FatFs.Valid, FatFs.Logical,
      Used, BytesOf, Overwrite, Fil.BadEntry, Fil.NoRoom, Fil.Lean;
    full := false;
    ghost var n := fp.obj.objSize;
    fp.LeanIs();
    res := fp.Seek(ofs);
    if res.OK? {
      fp.LeanIs();
      full := fp.fptr != Target(ModeOf(fp), ofs, n);
    }
  }

  method DoTruncate(fp: Fil) returns (res: FResult, o: Reply)
    requires fp.Usable() && fp.err.OK?
    modifies fp, fp.buf, fp.obj, fp.obj.fs, fp.obj.fs.win, fp.obj.fs.disk
    ensures fp.obj.fs.Valid() && OthersKept(fp.obj.fs, old(fp.Now()), fp.obj.fs.Logical())
    ensures res.OK? ==> fp.Usable() && fp.err.OK? && fp.Since(old(fp.Now()))
    ensures res.OK? ==> Does(ModeOf(fp), old(Visible(fp)), TruncateOp, o, Visible(fp), false)
    ensures res.OK? || res.DiskErr?
    ensures res.OK? && old(fp.Own()) && !Loosens(old(Visible(fp)), TruncateOp, o) ==> fp.Own()
    ensures (old(fp.tracked) ==> fp.tracked) && (res.OK? && old(fp.modified) ==> fp.modified)
    ensures res.OK? && old(fp.Clear()) ==> fp.Clear()
    ensures res.OK? && old(fp.Lean()) ==> fp.Lean()
    ensures old(fp.Quiet()) ==> fp.Quiet() && !res.DiskErr?
  {
    hide Fil.Core, Fil.Usable, Fil.Clear, Fil.Positioned, Fil.Sized, OthersKept, Fil.Since, FatFs.Valid, FatFs.Logical,
      Used, BytesOf, Overwrite, Fil.BadEntry, Fil.NoRoom;
    o := NOTHING;
    fp.PointerInFile();
    res := fp.Truncate();
    if res.Denied? {
      res, o := OK, DENIED;
    }
  }

  method DoSync(fp: Fil) returns (res: FResult)
    requires fp.Usable() && fp.err.OK?
    modifies fp, fp.buf, fp.obj, fp.obj.fs, fp.obj.fs.win, fp.obj.fs.disk
    ensures fp.obj.fs.Valid() && OthersKept(fp.obj.fs, old(fp.Now()), fp.obj.fs.Logical())
    ensures res.OK? ==> fp.Usable() && fp.err.OK? && fp.Since(old(fp.Now()))
    ensures res.OK? ==> Does(ModeOf(fp), old(Visible(fp)), SyncOp, NOTHING, Visible(fp), false)
    ensures res.OK? || res.DiskErr?
    ensures res.OK? && old(fp.Own()) ==> fp.Own()
    ensures (old(fp.tracked) ==> fp.tracked) && fp.modified == old(fp.modified)
    ensures res.OK? && old(fp.Clear()) ==> fp.Clear()
    ensures res.OK? && old(fp.Lean()) ==> fp.Lean()
    ensures old(fp.Quiet()) ==> fp.Quiet() && !res.DiskErr?
  {
    hide Fil.Core, Fil.Usable, Fil.Clear, Fil.Positioned, Fil.Sized, OthersKept, Fil.Since, FatFs.Valid, FatFs.Logical,
      Used, BytesOf, Overwrite, Fil.BadEntry, Fil.NoRoom, Fil.Lean;
    res := fp.SyncData();
  }

  /** One operation.  One that is denied leaves the file usable, so it does not count as a failure. */
  method Perform(fp: Fil, op: Op) returns (res: FResult, o: Reply, ghost full: bool)
    requires fp.Usable() && fp.err.OK?
    requires op.WriteOp? ==> |op.bytes| < 0x1_0000_0000
    modifies fp, fp.buf, fp.obj, fp.obj.fs, fp.obj.fs.win, fp.obj.fs.disk
    ensures fp.obj.fs.Valid() && OthersKept(fp.obj.fs, old(fp.Now()), fp.obj.fs.Logical())
    ensures res.OK? ==> fp.Usable() && fp.err.OK? && fp.Since(old(fp.Now()))
    ensures res.OK? && (old(fp.Clear()) || !Looks(op)) ==> Does(ModeOf(fp), old(Visible(fp)), op, o, Visible(fp), full)
    ensures res.OK? ==> Moves(ModeOf(fp), old(Visible(fp)), op, o, Visible(fp), full)
    ensures res.OK? && full ==> fp.NoRoom()
    ensures res.OK? || res.DiskErr? || (res.IntErr? && old(fp.BadEntry()))
    ensures res.OK? && old(fp.Own()) && !Loosens(old(Visible(fp)), op, o) ==> fp.Own()
    ensures (old(fp.tracked) ==> fp.tracked) && (res.OK? ==> Marks(old(fp.modified), op, o, fp.modified))
    ensures res.OK? && old(fp.Clear()) && !Lengthened(old(Visible(fp)), op, Visible(fp)) ==> fp.Clear()
    ensures res.OK? && old(fp.Lean()) ==> fp.Lean()
    ensures old(fp.Quiet()) ==> fp.Quiet() && !res.DiskErr?
  {
    hide Fil.Core, Fil.Usable, Fil.Clear, Fil.Positioned, Fil.Sized, OthersKept, Fil.Since, FatFs.Valid, FatFs.Logical,
      Used, BytesOf, Overwrite, Fil.BadEntry, Fil.NoRoom, Fil.Lean;
    fp.PointerInFile();
    o, full := NOTHING, false;
    match op
    case ReadOp(n) => res, o := DoRead(fp, n);
    case WriteOp(w) => res, o, full := DoWrite(fp, w);
    case SeekOp(ofs) => res, full := DoSeek(fp, ofs);
    case TruncateOp => res, o := DoTruncate(fp);
    case SyncOp => res := DoSync(fp);
  }

  // ---------------------------------------------------------------- runs

  /** The plain file goes through `states` under the operations, with the given outcomes. */
  ghost predicate Explains(m: Mode, states: seq<Plain>, ops: seq<Op>, outs: seq<Reply>, fulls: seq<bool>) {
    && |states| == |outs| + 1 == |fulls| + 1 && |outs| <= |ops|
    && (forall i | 0 <= i < |states| :: states[i].pos <= |states[i].bytes|)
    && (forall i | 0 <= i < |outs| :: Does(m, states[i], ops[i], outs[i], states[i + 1], fulls[i]))
  }

  lemma ExplainsMore(m: Mode, states: seq<Plain>, ops: seq<Op>, outs: seq<Reply>, fulls: seq<bool>, o: Reply,
    q: Plain, full: bool)
    requires Explains(m, states, ops, outs, fulls) && |outs| < |ops| && q.pos <= |q.bytes|
    requires Does(m, states[|outs|], ops[|outs|], o, q, full)
    ensures Explains(m, states + [q], ops, outs + [o], fulls + [full])
  {
  }

  /** What one operation may do to the volume: the file takes free clusters and gives back its own, and
      everything that belongs to others stays. */
  ghost predicate Changes(fs: FatFs, g: Start, h: Start)
    requires fs.Shape()
  {
    Stays(g, h.u, h.ch) && OthersKept(fs, g, h.l) && LinksKept(g, h.t) && FreeKept(g, h)
  }

  /** The volume has no free cluster, or its free count says so. */
  ghost predicate Packed(g: Start) {
    g.free == 0 || AllUsed(g.u)
  }

  /** A free count to keep right is right. */
  ghost predicate Sound(g: Start) {
    g.counted && g.free <= |g.u| - 2 ==> g.free == Unused(g.u, |g.u|)
  }

  /** The volume goes through `vols`, and an operation met a full volume (fulls) only when it was packed. */
  ghost predicate Traces(fs: FatFs, vols: seq<Start>, fulls: seq<bool>)
    requires fs.Shape()
  {
    && |vols| == |fulls| + 1
    && (forall i | 0 <= i < |vols| :: |vols[i].u| == fs.nFatEnt && Sound(vols[i]))
    && (forall i | 0 <= i < |fulls| :: Changes(fs, vols[i], vols[i + 1]) && (fulls[i] ==> Packed(vols[i + 1])))
  }

  lemma TracesMore(fs: FatFs, vols: seq<Start>, fulls: seq<bool>, h: Start, full: bool)
    requires fs.Shape() && Traces(fs, vols, fulls) && |h.u| == fs.nFatEnt && Sound(h)
    requires Changes(fs, vols[|fulls|], h) && (full ==> Packed(h))
    ensures Traces(fs, vols + [h], fulls + [full])
  {
  }

  /** An operation that met a full volume had taken every cluster that was free before it. */
  lemma FullTookAll(fs: FatFs, vols: seq<Start>, fulls: seq<bool>, i: nat)
    requires fs.Shape() && Traces(fs, vols, fulls) && i < |fulls| && fulls[i]
    requires vols[i].counted || vols[i + 1].free != 0
    ensures forall c | 2 <= c < fs.nFatEnt && !vols[i].u[c] :: c in vols[i + 1].ch
  {
    var g, h := vols[i], vols[i + 1];
    assert Changes(fs, g, h) && Packed(h) && Sound(h);
    NoneUnused(h.u, |h.u|);
  }

  /** Along a run a free count that is right and in range stays so. */
  lemma {:induction false} CountStays(fs: FatFs, vols: seq<Start>, fulls: seq<bool>, i: nat)
    requires fs.Shape() && Traces(fs, vols, fulls) && i < |vols|
    requires vols[0].counted && vols[0].free <= fs.nFatEnt - 2
    ensures vols[i].counted && vols[i].free <= fs.nFatEnt - 2 && vols[i].free == Unused(vols[i].u, |vols[i].u|)
  {
    if i > 0 {
      CountStays(fs, vols, fulls, i - 1);
      assert Changes(fs, vols[i - 1], vols[i]);
    }
    assert Sound(vols[i]);
  }

  /** What happened in a run: the plain file and the volume before and after every operation, what the caller
      saw, and whether the operation met a full volume. */
  datatype History = History(states: seq<Plain>, vols: seq<Start>, outs: seq<Reply>, fulls: seq<bool>)

  /** The history leads from plain file p and volume g to q and h. */
  ghost predicate Leads(fs: FatFs, m: Mode, ops: seq<Op>, r: History, p: Plain, g: Start, q: Plain, h: Start)
    requires fs.Shape()
  {
    && Explains(m, r.states, ops, r.outs, r.fulls) && Traces(fs, r.vols, r.fulls)
    && r.states[0] == p && r.vols[0] == g && r.states[|r.outs|] == q && r.vols[|r.outs|] == h
  }

  function Longer(r: History, q: Plain, h: Start, o: Reply, full: bool): History {
    History(r.states + [q], r.vols + [h], r.outs + [o], r.fulls + [full])
  }

  lemma LeadsMore(fs: FatFs, m: Mode, ops: seq<Op>, r: History, p: Plain, g: Start, q: Plain, h: Start,
    o: Reply, full: bool, q': Plain, h': Start)
    requires fs.Shape() && Leads(fs, m, ops, r, p, g, q, h) && |r.outs| < |ops| && q.pos <= |q.bytes|
    requires q'.pos <= |q'.bytes|
    requires Does(m, q, ops[|r.outs|], o, q', full)
    requires |h'.u| == fs.nFatEnt && Sound(h') && Changes(fs, h, h') && (full ==> Packed(h'))
    ensures Leads(fs, m, ops, Longer(r, q', h', o, full), p, g, q', h')
    ensures Longer(r, q', h', o, full).outs == r.outs + [o]
  {
    ExplainsMore(m, r.states, ops, r.outs, r.fulls, o, q', full);
    TracesMore(fs, r.vols, r.fulls, h', full);
  }

  /** The operations one after the other, up to the first that fails. */
  method PerformAll(fp: Fil, ops: seq<Op>) returns (res: FResult, outs: seq<Reply>, ghost r: History)
    requires fp.Ready() && fp.err.OK?
    requires forall i | 0 <= i < |ops| :: ops[i].WriteOp? ==> |ops[i].bytes| < 0x1_0000_0000
    modifies fp, fp.buf, fp.obj, fp.obj.fs, fp.obj.fs.win, fp.obj.fs.disk
    ensures Explains(ModeOf(fp), r.states, ops, outs, r.fulls) && r.states[0] == old(Visible(fp))
    ensures fp.obj.fs.Shape() && Traces(fp.obj.fs, r.vols, r.fulls) && r.vols[0] == old(fp.Now())
    ensures res.OK? ==> |outs| == |ops| && fp.Ready() && Visible(fp) == r.states[|ops|] && fp.Now() == r.vols[|ops|]
    ensures fp.obj.fs.Valid() && (res.OK? || res.DiskErr? || (res.IntErr? && old(fp.BadEntry())))
    ensures OthersKept(fp.obj.fs, old(fp.Now()), fp.obj.fs.Logical())
    ensures res.OK? ==> fp.Kept(old(fp.Now()))
    ensures res.OK? && old(fp.Lean()) ==> fp.Lean()
    ensures old(fp.Quiet()) ==> !res.DiskErr?
  {
    hide *;
    fp.ReadyParts();
    fp.ReadyFacts();
    fp.CoreFacts();
    fp.BadIs();
    ghost var p, g := Visible(fp), fp.Now();
    res, outs, r := OK, [], History([p], [g], [], []);
    RunStarts(fp, ops);
    var n := 0;
    while n < |ops|
      invariant 0 <= n <= |ops| && |outs| == n && r.outs == outs && res.OK?
      invariant fp.Usable() && fp.Core() && fp.tracked && fp.err.OK?
      invariant fp.obj.fs.Valid() && fp.obj.fs.Shape() && fp.Kept(g)
      invariant Leads(fp.obj.fs, ModeOf(fp), ops, r, p, g, Visible(fp), fp.Now())
      invariant old(fp.Lean()) ==> fp.Lean()
      invariant old(fp.Quiet()) ==> fp.Quiet()
    {
      ghost var q, h := Visible(fp), fp.Now();
      LeadsFacts(fp.obj.fs, ModeOf(fp), ops, r, p, g, q, h);
      TrackedFacts(fp);
      StillKept(fp, g);
      fp.BadIs();
      var o;
      ghost var full;
      res, o, full := Perform(fp, ops[n]);
      SinceThen(fp, g, h);
      if !res.OK? {
        return;
      }
      fp.ReadyFacts();
      TrackedFacts(fp);
      HasChanged(fp, h, full);
      LeadsMore(fp.obj.fs, ModeOf(fp), ops, r, p, g, q, h, o, full, Visible(fp), fp.Now());
      outs, r, n := outs + [o], Longer(r, Visible(fp), fp.Now(), o, full), n + 1;
    }
    LeadsFacts(fp.obj.fs, ModeOf(fp), ops, r, p, g, Visible(fp), fp.Now());
    fp.ReadyParts();
    SinceLast(fp, g);
  }

  lemma TrackedFacts(fp: Fil)
    requires fp.Usable() && fp.Core() && fp.tracked
    ensures fp.obj.fs.Shape() && 0 < fp.obj.fs.cSize && fp.Clear() && Visible(fp).pos <= |Visible(fp).bytes|
  {
    hide Fil.Usable, Fil.Core, Fil.Clear, BytesOf;
    fp.CoreFacts();
    fp.TrackedIsClear(fp.obj.objSize);
    fp.ClearAt();
    fp.PointerInFile();
  }

  lemma RunStarts(fp: Fil, ops: seq<Op>)
    requires fp.obj.fs.Valid() && fp.Ready()
    ensures fp.obj.fs.Shape() && fp.Kept(fp.Now())
    ensures var p, g := Visible(fp), fp.Now(); Leads(fp.obj.fs, ModeOf(fp), ops, History([p], [g], [], []), p, g, p, g)
  {
    fp.NowSince();
    fp.PointerInFile();
  }

  lemma LeadsFacts(fs: FatFs, m: Mode, ops: seq<Op>, r: History, p: Plain, g: Start, q: Plain, h: Start)
    requires fs.Shape() && Leads(fs, m, ops, r, p, g, q, h)
    ensures Explains(m, r.states, ops, r.outs, r.fulls) && Traces(fs, r.vols, r.fulls)
    ensures r.states[0] == p && r.vols[0] == g && r.states[|r.outs|] == q && r.vols[|r.outs|] == h
  {
  }

  lemma SinceLast(fp: Fil, g: Start)
    requires fp.obj.fs.Valid() && fp.Kept(g)
    ensures fp.obj.fs.Shape() && OthersKept(fp.obj.fs, g, fp.obj.fs.Logical())
  {
  }

  /** What an operation that succeeded did to the volume. */
  lemma HasChanged(fp: Fil, h: Start, full: bool)
    requires fp.obj.fs.Valid() && fp.Since(h) && (full ==> fp.NoRoom())
    ensures fp.obj.fs.Shape() && Changes(fp.obj.fs, h, fp.Now()) && (full ==> Packed(fp.Now()))
    ensures |fp.Now().u| == fp.obj.fs.nFatEnt && Sound(fp.Now())
  {
  }

  lemma StillKept(fp: Fil, g: Start)
    requires fp.obj.fs.Valid() && fp.Kept(g)
    ensures var h := fp.Now();
      && LinksKept(g, h.t) && FreeKept(g, h) && Spared(g, h.u, h.ch) && OthersKept(fp.obj.fs, g, h.l)
      && |h.u| == fp.obj.fs.nFatEnt && (WasBroken(h) ==> WasBroken(g))
  {
  }

  lemma SinceThen(fp: Fil, g: Start, h: Start)
    requires fp.obj.fs.Valid() && fp.obj.fs.Shape() && |h.u| == fp.obj.fs.nFatEnt
    requires Spared(g, h.u, h.ch) && OthersKept(fp.obj.fs, g, h.l) && OthersKept(fp.obj.fs, h, fp.obj.fs.Logical())
    requires LinksKept(g, h.t) && FreeKept(g, h)
    ensures OthersKept(fp.obj.fs, g, fp.obj.fs.Logical())
    ensures fp.Since(h) ==> fp.Kept(g)
  {
    SinceTwice(fp.obj.fs, g, h, h.u, h.ch, fp.obj.fs.Logical());
    if fp.Since(h) {
      SinceTwice(fp.obj.fs, g, h, Used(fp.obj.fs), fp.obj.chain, fp.obj.fs.Logical());
    }
  }

  /** Operation number k leaves byte number b as it is. */
  ghost predicate Spares(states: seq<Plain>, ops: seq<Op>, outs: seq<Reply>, k: nat, b: nat)
    requires k < |states| && k < |ops| && k < |outs|
  {
    match ops[k]
    case WriteOp(_) => !(states[k].pos <= b < states[k].pos + outs[k].count)
    case TruncateOp => outs[k].denied || b < states[k].pos
    case _ => true
  }

  /** A byte stays until an operation overwrites it or cuts it off. */
  lemma {:induction false} ByteStays(m: Mode, states: seq<Plain>, ops: seq<Op>, outs: seq<Reply>,
    fulls: seq<bool>, i: nat, j: nat, b: nat)
    requires Explains(m, states, ops, outs, fulls) && i <= j < |states| && b < |states[i].bytes|
    requires forall k | i <= k < j :: Spares(states, ops, outs, k, b)
    ensures b < |states[j].bytes| && states[j].bytes[b] == states[i].bytes[b]
    decreases j - i
  {
    if i < j {
      ByteStays(m, states, ops, outs, fulls, i, j - 1, b);
      assert Spares(states, ops, outs, j - 1, b);
      assert Does(m, states[j - 1], ops[j - 1], outs[j - 1], states[j], fulls[j - 1]);
      assert ops[j - 1].SeekOp? ==> states[j].bytes[..|states[j - 1].bytes|][b] == states[j].bytes[b];
    }
  }

  /** No run changes a file that was not opened for writing, and every seek in it arrives at its target. */
  lemma {:induction false} ReadOnlyStays(m: Mode, states: seq<Plain>, ops: seq<Op>, outs: seq<Reply>,
    fulls: seq<bool>, k: nat)
    requires Explains(m, states, ops, outs, fulls) && k < |states| && !m.writing
    ensures states[k].bytes == states[0].bytes
    ensures k > 0 && ops[k - 1].SeekOp? ==> states[k].pos == Target(m, ops[k - 1].ofs, |states[0].bytes|)
  {
    if k > 0 {
      ReadOnlyStays(m, states, ops, outs, fulls, k - 1);
      var p, q := states[k - 1], states[k];
      assert Does(m, p, ops[k - 1], outs[k - 1], q, fulls[k - 1]);
      if ops[k - 1].SeekOp? {
        assert q.bytes == q.bytes[..|p.bytes|];
      }
    }
  }

  /** Reads return the bytes last written: operation i wrote byte number b, none between i and j touched it,
      and operation j reads it. */
  lemma ReadReturnsLastWritten(m: Mode, states: seq<Plain>, ops: seq<Op>, outs: seq<Reply>, fulls: seq<bool>,
    i: nat, j: nat, b: nat)
    requires Explains(m, states, ops, outs, fulls) && i < j < |outs| && ops[i].WriteOp? && ops[j].ReadOp?
    requires states[i].pos <= b < states[i].pos + outs[i].count
    requires forall k | i < k < j :: Spares(states, ops, outs, k, b)
    requires states[j].pos <= b < states[j].pos + outs[j].count
    ensures b - states[i].pos < |ops[i].bytes| && b - states[j].pos < |outs[j].got|
    ensures outs[j].got[b - states[j].pos] == ops[i].bytes[b - states[i].pos]
  {
    assert Does(m, states[i], ops[i], outs[i], states[i + 1], fulls[i]);
    assert Does(m, states[j], ops[j], outs[j], states[j + 1], fulls[j]);
    ByteStays(m, states, ops, outs, fulls, i + 1, j, b);
  }
}
