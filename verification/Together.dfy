/** Runs of operations on several open files of one volume, each against a plain file of its own. */
module Together {
  import opened Disks
  import opened Volumes
  import opened Chains
  import opened ObjChains
  import opened Objects
  import opened Layout
  import opened Caches
  import opened Contents
  import opened Files
  import opened Runs
  import opened Sharing
  import opened Durability

  /** An operation on file number `file`, at a time for its directory entry. */
  datatype Step = Step(file: nat, op: Op, time: nat)

  /** Where the directory entry of a file is. */
  datatype Place = Place(d: nat, at: nat)

  /** A buffer: it is in agreement with the file (clear), it is known to show what is on the disk or to be newer
      (sure), it shows a sector of the file or none (own), and what it shows; and whether f_sync() has something to
      store in the directory (changed). */
  datatype Hold = Hold(clear: bool, sure: bool, own: bool, shown: Cache, changed: bool)

  /** What there is to see of the files, their clusters and buffers, and the volume. */
  datatype Scene = Scene(files: seq<Plain>, chains: seq<seq<nat>>, bufs: seq<Hold>, vol: Start)

  ghost function VolumeNow(fs: FatFs): Start
    requires fs.Valid()
    reads fs`freeClst, fs`wFlag, fs`winSect, fs.win, fs.disk`sec
  {
    Start(Used(fs), [], fs.Logical(), fs.winSect, fs.Table(), fs.freeClst, !fs.fsType.EXFAT? && CountOk(fs))
  }

  ghost function HoldNow(fp: Fil): Hold
    requires 0 < fp.obj.fs.cSize
    reads fp`sect, fp`dirty, fp`tracked, fp`modified, fp`data, fp.buf, fp.obj`chain, fp.obj`objSize
  {
    Hold(fp.Clear(), fp.tracked, fp.Own(), Cache(fp.sect, fp.dirty, fp.buf[..]), fp.modified)
  }

  /** The buffer ca is clean, but its sector, one for the first n bytes of the clusters ch, is another on the disk l. */
  ghost predicate Stale(fs: FatFs, ch: seq<nat>, n: nat, ca: Cache, l: seq<Sector>)
    requires 0 < fs.cSize
  {
    !ca.dirty && ca.sect < |l| && l[ca.sect] != ca.buf
    && exists k | 0 <= k < |Sectors(fs, ch)| && k * 512 < n :: Sectors(fs, ch)[k] == ca.sect
  }

  /** The buffer of file number i is that. */
  ghost predicate StaleIn(fs: FatFs, p: Scene, i: nat)
    requires 0 < fs.cSize && i < |p.files| && i < |p.chains| && i < |p.bufs|
  {
    Stale(fs, p.chains[i], |p.files[i].bytes|, p.bufs[i].shown, p.vol.l)
  }

  /** The pointers are in the files; just the buffers that are stale are not in agreement with them; only a file that
      has changed has a dirty buffer, and one on FAT12/16/32 with a clean buffer is all on the disk. */
  ghost predicate Told(fs: FatFs, n: nat, p: Scene) {
    && 0 < fs.cSize && |p.files| == |p.chains| == |p.bufs| == n
    && forall i | 0 <= i < n ::
         && p.files[i].pos <= |p.files[i].bytes| && (p.bufs[i].clear <==> !StaleIn(fs, p, i))
         && (p.bufs[i].shown.dirty ==> p.bufs[i].changed)
         && (!fs.fsType.EXFAT? && !p.bufs[i].shown.dirty ==>
               Laid(fs, p.vol.l, ON_FAT, p.chains[i], p.files[i].bytes))
  }

  /** The scene from file number i. */
  function From(p: Scene, i: nat): Start
    requires i < |p.chains|
  {
    p.vol.(ch := p.chains[i])
  }

  function Modes(files: seq<Fil>): (ms: seq<Mode>)
    ensures |ms| == |files| && forall i | 0 <= i < |files| :: ms[i] == ModeOf(files[i])
  {
    seq(|files|, i requires 0 <= i < |files| => ModeOf(files[i]))
  }

  /** A whole f_sync(), with the directory entry. */
  predicate Whole(fs: FatFs, op: Op) {
    op.SyncOp? && !fs.fsType.EXFAT?
  }

  /** The sectors beside FAT and data that the operation may write. */
  function Beyond(fs: FatFs, op: Op, place: Place, info: nat): set<int> {
    if Whole(fs, op) then Touched(place.d, info) else {}
  }

  /** What becomes of the buffer of the file that is operated on. */
  ghost predicate Handled(b: Hold, p: Plain, op: Op, o: Reply, q: Plain, b': Hold) {
    && (b.sure && (b.own || !op.SyncOp?) ==> b'.sure)
    && (b.own && !Loosens(p, op, o) ==> b'.own)
    && (b.clear && !Lengthened(p, op, q) ==> b'.clear)
    && (b'.sure ==> b'.clear) && (!op.SyncOp? ==> Marks(b.changed, op, o, b'.changed))
  }

  /** What becomes of the buffers of the other files. */
  ghost predicate Untouched(b: Hold, b': Hold) {
    b'.clear == b.clear && b'.own == b.own && b'.shown == b.shown && b'.changed == b.changed
    && (b.sure && b.own ==> b'.sure)
  }

  /** What an operation does to its own file: if it looks at the buffer, and that is not in agreement with the file,
      no more is said than how pointer and size move. */
  ghost predicate Acts(m: Mode, p: Plain, clear: bool, op: Op, o: Reply, q: Plain, full: bool) {
    && Moves(m, p, op, o, q, full)
    && (clear || !Looks(op) ==> p.pos <= |p.bytes| && Does(m, p, op, o, q, full))
  }

  /** A whole f_sync() stores in the directory what has changed, and leaves the other entries alone. */
  ghost predicate Stored(fs: FatFs, place: Place, ch: seq<nat>, bytes: seq<byte>, was: bool, now: bool, l: seq<Sector>,
    m: seq<Sector>)
  {
    && EntryOnly(place.d, place.at, l, m) && !now
    && if was then Recorded(fs, m, place.d, place.at, ch, bytes) else m[place.d] == l[place.d]
  }

  /** One turn: the operation does what it does to a file of its own, the other files see nothing of it. */
  ghost predicate Turn(fs: FatFs, ms: seq<Mode>, places: seq<Place>, info: nat, p: Scene, s: Step, o: Reply, q: Scene,
    full: bool)
    requires fs.Shape()
  {
    && s.file < |ms| == |places| == |p.files| == |p.chains| == |p.bufs| == |q.files| == |q.chains| == |q.bufs|
    && Acts(ms[s.file], p.files[s.file], p.bufs[s.file].clear, s.op, o, q.files[s.file], full)
    && Handled(p.bufs[s.file], p.files[s.file], s.op, o, q.files[s.file], q.bufs[s.file])
    && (forall j | 0 <= j < |ms| && j != s.file ::
          q.files[j] == p.files[j] && q.chains[j] == p.chains[j] && Untouched(p.bufs[j], q.bufs[j]))
    && Leaves(fs, From(p, s.file), q.vol.u, q.chains[s.file], q.vol.l, q.vol.t, q.vol.w,
          Beyond(fs, s.op, places[s.file], info))
    && (Whole(fs, s.op) ==>
          Stored(fs, places[s.file], q.chains[s.file], q.files[s.file].bytes, p.bufs[s.file].changed,
            q.bufs[s.file].changed, p.vol.l, q.vol.l))
    && FreeKept(p.vol, q.vol) && (full ==> Packed(q.vol))
  }

  /** The files have clusters in use, each its own, and the directory entries and FSInfo are in none of them and in no
      free one; clusters in use and links are as the disk says. */
  ghost predicate Parted(fs: FatFs, places: seq<Place>, info: nat, p: Scene)
    requires fs.Shape()
  {
    && |p.vol.l| == fs.disk.size && p.vol.u == UsedOn(fs, p.vol.l) && p.vol.t == TableOn(fs, p.vol.l)
    && |p.chains| == |places|
    && (forall i | 0 <= i < |places| :: InTable(fs.nFatEnt, p.chains[i]) && Owned(fs, p.vol.u, p.chains[i]))
    && (forall i, j | 0 <= i < |places| && 0 <= j < |places| && i != j :: Apart(p.chains[i], p.chains[j]))
    && (!fs.fsType.EXFAT? ==> forall i, j | 0 <= i < |places| && 0 <= j < |places| ::
          EntryFits(fs, places[i].d, places[i].at, p.vol.u, p.chains[j]) && InfoFits(fs, places[i].d, info))
  }

  /** The scenes that the operations, with the given outcomes, go through. */
  ghost predicate Interleaves(fs: FatFs, ms: seq<Mode>, places: seq<Place>, info: nat, scenes: seq<Scene>,
    steps: seq<Step>, outs: seq<Reply>, fulls: seq<bool>)
    requires fs.Shape()
  {
    && |scenes| == |outs| + 1 == |fulls| + 1 && |outs| <= |steps|
    && (forall k | 0 <= k < |scenes| :: Told(fs, |ms|, scenes[k]) && Parted(fs, places, info, scenes[k]))
    && (forall k | 0 <= k < |outs| ::
          Turn(fs, ms, places, info, scenes[k], steps[k], outs[k], scenes[k + 1], fulls[k]))
  }

  // ---------------------------------------------------------------- one step

  lemma HoldIs(fp: Fil)
    requires 0 < fp.obj.fs.cSize
    ensures HoldNow(fp) == Hold(fp.Clear(), fp.tracked, fp.Own(), Cache(fp.sect, fp.dirty, fp.buf[..]), fp.modified)
    ensures fp.Usable() && fp.tracked ==> fp.Clear()
  {
    hide Fil.Usable, Fil.Clear, Fil.Own;
    fp.ReadyParts();
  }

  lemma RoomIs(fp: Fil)
    requires fp.obj.fs.Valid() && fp.NoRoom()
    ensures Packed(fp.Now())
  {
    hide Used, FatFs.Table, FatFs.Logical;
  }

  lemma ActsIs(m: Mode, p: Plain, clear: bool, op: Op, o: Reply, q: Plain, full: bool)
    requires Moves(m, p, op, o, q, full) && p.pos <= |p.bytes| && (clear || !Looks(op) ==> Does(m, p, op, o, q, full))
    ensures Acts(m, p, clear, op, o, q, full)
  {
    hide Moves, Does;
  }

  lemma HandledIs(b: Hold, p: Plain, op: Op, o: Reply, q: Plain, b': Hold)
    requires (b.sure && (b.own || !op.SyncOp?) ==> b'.sure) && (b.own && !Loosens(p, op, o) ==> b'.own)
    requires (b.clear && !Lengthened(p, op, q) ==> b'.clear) && (b'.sure ==> b'.clear)
    requires !op.SyncOp? ==> Marks(b.changed, op, o, b'.changed)
    ensures Handled(b, p, op, o, q, b')
  {
    hide Loosens, Lengthened, Marks;
  }

  /** An operation that is no whole f_sync(). */
  method OpStep(fp: Fil, op: Op) returns (res: FResult, o: Reply, ghost full: bool)
    requires fp.Usable() && fp.err.OK? && fp.obj.fs.Shape() && 0 < fp.obj.fs.cSize
    requires op.WriteOp? ==> |op.bytes| < 0x1_0000_0000
    modifies fp, fp.buf, fp.obj, fp.obj.fs, fp.obj.fs.win, fp.obj.fs.disk
    ensures fp.obj.fs.Valid() && (res.OK? || res.DiskErr? || (res.IntErr? && old(fp.BadEntry())))
    ensures res.OK? ==> fp.Usable() && fp.Core() && fp.err.OK?
    ensures res.OK? ==>
              Acts(ModeOf(fp), old(Visible(fp)), old(HoldNow(fp)).clear, op, o, Visible(fp), full)
              && Handled(old(HoldNow(fp)), old(Visible(fp)), op, o, Visible(fp), HoldNow(fp))
    ensures res.OK? ==> var g, h := old(fp.Now()), fp.Now();
      && Leaves(fp.obj.fs, g, h.u, h.ch, h.l, h.t, h.w, {}) && FreeKept(g, h) && (full ==> Packed(h))
    ensures |old(fp.obj.fs.disk.script)| == 0 ==> !res.DiskErr? && (res.OK? ==> |fp.obj.fs.disk.script| == 0)
  {
    hide *;
    fp.ReadyFacts();
    fp.CoreFacts();
    fp.PointerInFile();
    fp.QuietIs();
    HoldIs(fp);
    NowIs(fp);
    VisibleBounds(fp);
    ghost var g := fp.Now();
    res, o, full := Perform(fp, op);
    fp.QuietIs();
    if res.OK? {
      fp.ReadyFacts();
      HoldIs(fp);
      AfterSync(fp, g, {});
      if full {
        RoomIs(fp);
      }
      ActsIs(ModeOf(fp), old(Visible(fp)), old(HoldNow(fp)).clear, op, o, Visible(fp), full);
      SyncLoosens(old(Visible(fp)), op, o);
      HandledIs(old(HoldNow(fp)), old(Visible(fp)), op, o, Visible(fp), HoldNow(fp));
    }
  }

  lemma VisibleBounds(fp: Fil)
    requires fp.Usable() && fp.Core()
    ensures Visible(fp).pos <= |Visible(fp).bytes|
  {
    hide Fil.Usable, Fil.Core;
    fp.PointerInFile();
  }

  lemma SyncLoosens(p: Plain, op: Op, o: Reply)
    ensures op.SyncOp? ==> !Loosens(p, op, o) && forall q :: !Lengthened(p, op, q)
    ensures op.SyncOp? ==> !Looks(op) && forall m, full | p.pos <= |p.bytes| ::
              Moves(m, p, op, NOTHING, p, full) && Does(m, p, op, NOTHING, p, full)
  {
  }

  lemma StoredIs(fs: FatFs, place: Place, ch: seq<nat>, bytes: seq<byte>, was: bool, l: seq<Sector>, m: seq<Sector>)
    requires EntryOnly(place.d, place.at, l, m)
    requires if was then Recorded(fs, m, place.d, place.at, ch, bytes) else m[place.d] == l[place.d]
    ensures Stored(fs, place, ch, bytes, was, false, l, m)
  {
    hide EntryOnly, Recorded;
  }

  /** A whole f_sync(). */
  method SyncStep(fp: Fil, time: nat, place: Place, info: nat) returns (res: FResult, sound: bool)
    requires fp.Usable() && fp.err.OK? && fp.obj.fs.Shape() && 0 < fp.obj.fs.cSize && !fp.obj.fs.fsType.EXFAT?
    requires EntryFits(fp.obj.fs, place.d, place.at, Used(fp.obj.fs), fp.obj.chain)
    requires InfoFits(fp.obj.fs, place.d, info)
    modifies fp, fp.buf, fp.obj, fp.obj.fs, fp.obj.fs.win, fp.obj.fs.disk
    ensures (res.OK? || res.DiskErr?) && (sound ==> fp.obj.fs.Valid())
    ensures res.OK? && sound ==> fp.Usable() && fp.Core() && fp.err.OK?
    ensures res.OK? && sound ==>
              Acts(ModeOf(fp), old(Visible(fp)), old(HoldNow(fp)).clear, SyncOp, NOTHING, Visible(fp), false)
              && Handled(old(HoldNow(fp)), old(Visible(fp)), SyncOp, NOTHING, Visible(fp), HoldNow(fp))
    ensures res.OK? && sound ==> var g, h := old(fp.Now()), fp.Now();
      Leaves(fp.obj.fs, g, h.u, h.ch, h.l, h.t, h.w, Touched(place.d, info)) && FreeKept(g, h)
    ensures res.OK? && sound ==>
              Stored(fp.obj.fs, place, fp.obj.chain, Visible(fp).bytes, old(fp.modified), fp.modified,
                old(fp.obj.fs.Logical()), fp.obj.fs.Logical())
    ensures |old(fp.obj.fs.disk.script)| == 0 ==> sound && res.OK? && |fp.obj.fs.disk.script| == 0
  {
    hide *;
    fp.ReadyFacts();
    fp.CoreFacts();
    fp.QuietIs();
    HoldIs(fp);
    VisibleBounds(fp);
    VisibleParts(fp);
    ghost var p, b, was, l := Visible(fp), HoldNow(fp), fp.modified, fp.obj.fs.Logical();
    res, sound := SyncFat(fp, place.d, place.at, time, info);
    fp.QuietIs();
    if res.OK? && sound {
      fp.ReadyFacts();
      HoldIs(fp);
      SyncLoosens(p, SyncOp, NOTHING);
      ActsIs(ModeOf(fp), p, b.clear, SyncOp, NOTHING, p, false);
      HandledIs(b, p, SyncOp, NOTHING, p, HoldNow(fp));
      if was {
        CleanWindow(fp.obj.fs);
      }
      StoredIs(fp.obj.fs, place, fp.obj.chain, p.bytes, was, l, fp.obj.fs.Logical());
    }
  }

  /** One operation on a file; sound is false if the FSInfo sector could not be written, of which the code takes no
      notice. */
  method Take(fp: Fil, s: Step, place: Place, info: nat)
    returns (res: FResult, o: Reply, sound: bool, ghost full: bool)
    requires fp.Usable() && fp.err.OK? && fp.obj.fs.Shape() && 0 < fp.obj.fs.cSize
    requires s.op.WriteOp? ==> |s.op.bytes| < 0x1_0000_0000
    requires Whole(fp.obj.fs, s.op) ==>
               EntryFits(fp.obj.fs, place.d, place.at, Used(fp.obj.fs), fp.obj.chain)
               && InfoFits(fp.obj.fs, place.d, info)
    modifies fp, fp.buf, fp.obj, fp.obj.fs, fp.obj.fs.win, fp.obj.fs.disk
    ensures res.OK? || res.DiskErr? || res.IntErr?
    ensures (sound ==> fp.obj.fs.Valid()) && (res.IntErr? ==> sound && WasBroken(old(fp.Now())))
    ensures res.OK? && sound ==> fp.Usable() && fp.Core() && fp.err.OK?
    ensures res.OK? && sound ==>
              Acts(ModeOf(fp), old(Visible(fp)), old(HoldNow(fp)).clear, s.op, o, Visible(fp), full)
              && Handled(old(HoldNow(fp)), old(Visible(fp)), s.op, o, Visible(fp), HoldNow(fp))
    ensures res.OK? && sound ==> var g, h := old(fp.Now()), fp.Now();
      && Leaves(fp.obj.fs, g, h.u, h.ch, h.l, h.t, h.w, Beyond(fp.obj.fs, s.op, place, info))
      && FreeKept(g, h) && (full ==> Packed(h))
    ensures res.OK? && sound && Whole(fp.obj.fs, s.op) ==>
              Stored(fp.obj.fs, place, fp.obj.chain, Visible(fp).bytes, old(fp.modified), fp.modified,
                old(fp.obj.fs.Logical()), fp.obj.fs.Logical())
    ensures |old(fp.obj.fs.disk.script)| == 0 ==> sound && !res.DiskErr? && (res.OK? ==> |fp.obj.fs.disk.script| == 0)
  {
    hide Fil.Usable, Fil.Core, Leaves, Acts, Handled, HoldNow, Visible, Fil.Now, EntryFits, InfoFits, Touched, Packed,
      FatFs.Shape, FatFs.Valid, Fil.BadEntry, WasBroken, Stored, FatFs.Logical;
    fp.ReadyFacts();
    fp.BadIs();
    sound, o, full := true, NOTHING, false;
    if s.op.SyncOp? && !fp.obj.fs.fsType.EXFAT? {
      res, sound := SyncStep(fp, s.time, place, info);
    } else {
      res, o, full := OpStep(fp, s.op);
    }
  }

  // ---------------------------------------------------------------- all files

  ghost predicate AllUsable(fs: FatFs, files: seq<Fil>)
    reads files, set i | 0 <= i < |files| :: files[i].obj
    reads set i | 0 <= i < |files| :: files[i].buf
    reads fs`wFlag, fs`winSect, fs.win, fs.disk`sec
  {
    && (forall i | 0 <= i < |files| :: files[i].obj.fs == fs && files[i].Usable() && files[i].err.OK?)
    && (forall i, j | 0 <= i < |files| && 0 <= j < |files| && i != j :: Beside(files[i], files[j]))
  }

  /** Only the buffer of file number i may be relied on although its sector is not the file's. */
  ghost predicate KnownBut(files: seq<Fil>, i: int)
    reads files, set j | 0 <= j < |files| :: files[j].obj
  {
    forall j | 0 <= j < |files| && j != i :: files[j].tracked ==> files[j].Own()
  }

  /** The scene p is what there is to see. */
  ghost predicate Presents(fs: FatFs, files: seq<Fil>, p: Scene)
    requires AllUsable(fs, files) && fs.Valid()
    reads files, set i | 0 <= i < |files| :: files[i].obj
    reads set i | 0 <= i < |files| :: files[i].buf
    reads fs`wFlag, fs`winSect, fs.win, fs.disk`sec, fs`freeClst
  {
    && |p.files| == |p.chains| == |p.bufs| == |files| && p.vol == VolumeNow(fs) && 0 < fs.cSize
    && forall i | 0 <= i < |files| ::
         p.files[i] == Visible(files[i]) && p.chains[i] == files[i].obj.chain && p.bufs[i] == HoldNow(files[i])
  }

  /** The directory entries have places of their own, and so has FSInfo. */
  ghost predicate AllPlaced(fs: FatFs, files: seq<Fil>, places: seq<Place>, info: nat)
    requires fs.Valid()
    reads set i | 0 <= i < |files| :: files[i].obj
    reads fs`wFlag, fs`winSect, fs.win, fs.disk`sec
  {
    && |places| == |files|
    && (!fs.fsType.EXFAT? ==> forall i, j | 0 <= i < |places| && 0 <= j < |files| ::
          EntryFits(fs, places[i].d, places[i].at, Used(fs), files[j].obj.chain) && InfoFits(fs, places[i].d, info))
  }

  /** The same for the clusters in the state g, those of file number i apart. */
  ghost predicate RestPlaced(fs: FatFs, files: seq<Fil>, places: seq<Place>, info: nat, i: nat, g: Start)
    reads set j | 0 <= j < |files| && j != i :: files[j].obj
  {
    && |places| == |files| && |g.u| == fs.nFatEnt
    && (!fs.fsType.EXFAT? ==>
          && (forall k | 0 <= k < |places| ::
                EntryFits(fs, places[k].d, places[k].at, g.u, g.ch) && InfoFits(fs, places[k].d, info))
          && (forall k, j | 0 <= k < |places| && 0 <= j < |files| && j != i ::
                EntryFits(fs, places[k].d, places[k].at, g.u, files[j].obj.chain)))
  }

  /** All files but number i are open in the state g, as in the scene p, and are others than number i. */
  ghost predicate RestOpen(fs: FatFs, files: seq<Fil>, i: nat, g: Start, p: Scene)
    reads set j | 0 <= j < |files| && j != i :: files[j]
    reads set j | 0 <= j < |files| && j != i :: files[j].obj
    reads set j | 0 <= j < |files| && j != i :: files[j].buf
  {
    && i < |p.files| == |p.chains| == |p.bufs| == |files| && 0 < fs.cSize
    && (forall j | 0 <= j < |files| && j != i ::
          && files[j].obj.fs == fs && files[j].err.OK? && OpenAt(files[j], g)
          && (files[j].tracked || files[j].dirty ==> files[j].Own())
          && p.files[j] == Bare(files[j]) && p.chains[j] == files[j].obj.chain && p.bufs[j] == HoldNow(files[j])
          && files[j] != files[i] && files[j].obj != files[i].obj && files[j].buf != files[i].buf)
    && forall j, k | 0 <= j < |files| && 0 <= k < |files| && j != k && j != i && k != i :: Beside(files[j], files[k])
  }

  lemma DirtyOwn(o: Fil)
    requires o.Core() && o.dirty
    ensures o.Own()
  {
    hide Fil.Core, Sectors;
    o.CoreFacts();
  }

  /** What an operation on one of the files can rely on. */
  lemma RestNow(fs: FatFs, files: seq<Fil>, i: nat, p: Scene)
    requires fs.Valid() && AllUsable(fs, files) && KnownBut(files, i) && Presents(fs, files, p) && i < |files|
    ensures files[i].obj.fs == fs && files[i].Usable() && files[i].err.OK? && files[i].Core() && 0 < fs.cSize
    ensures i < |p.files| == |p.chains| == |p.bufs| == |files|
    ensures p.files[i] == Visible(files[i]) && From(p, i) == files[i].Now()
    ensures p.bufs[i] == HoldNow(files[i]) && fs.Shape()
    ensures forall j | 0 <= j < |files| && j != i ::
              && files[j] != files[i] && files[j].obj != files[i].obj
              && files[j].buf != files[i].buf && files[j].buf != fs.win
    ensures RestOpen(fs, files, i, files[i].Now(), p)
    ensures var g := files[i].Now(); Owned(fs, g.u, g.ch) && Away(fs, g.w, g.u, g.ch)
  {
    hide OpenAt, Fil.Usable, Fil.Own, Visible, Bare, Apart, FatFs.Logical, Used, FatFs.Table, FatFs.Valid, HoldNow,
      Fil.Core;
    files[i].ReadyFacts();
    files[i].CoreFacts();
    forall j | 0 <= j < |files| && j != i
      ensures OpenAt(files[j], files[i].Now()) && files[j].Core() && files[j].buf != fs.win
      ensures files[j].tracked || files[j].dirty ==> files[j].Own()
      ensures files[j].obj.objSize <= |files[j].data| * 512 && Visible(files[j]) == Bare(files[j])
    {
      files[j].ReadyFacts();
      files[j].CoreFacts();
      OpenNow(files[i], files[j]);
      if files[j].dirty {
        DirtyOwn(files[j]);
      }
    }
  }

  lemma PlacedNow(fs: FatFs, files: seq<Fil>, places: seq<Place>, info: nat, i: nat, op: Op)
    requires fs.Valid() && AllPlaced(fs, files, places, info) && i < |files| && files[i].obj.fs == fs
    ensures RestPlaced(fs, files, places, info, i, files[i].Now())
    ensures Whole(fs, op) ==>
              EntryFits(fs, places[i].d, places[i].at, Used(fs), files[i].obj.chain)
              && InfoFits(fs, places[i].d, info)
  {
    hide EntryFits, InfoFits, FatFs.Logical, Used, FatFs.Table, FatFs.Valid;
    NowIs(files[i]);
  }

  lemma BeyondAway(fs: FatFs, op: Op, place: Place, info: nat, u: seq<bool>, ch: seq<nat>)
    requires fs.Shape() && |u| == fs.nFatEnt
    requires Whole(fs, op) ==> EntryFits(fs, place.d, place.at, u, ch) && InfoFits(fs, place.d, info)
    ensures AllAway(fs, Beyond(fs, op, place, info), u, ch)
  {
    hide EntryFits, InfoFits, Apartness;
    if Whole(fs, op) {
      TouchedApart(fs, place.d, place.at, info, u, ch);
      ApartnessFacts(fs, Touched(place.d, info), u, ch);
    }
  }

  /** A place for a directory entry stays one, when something is done to a file with other clusters. */
  lemma FitsOther(fs: FatFs, g: Start, ch: seq<nat>, u: seq<bool>, ch0: seq<nat>, d: nat, at: nat)
    requires |u| == |g.u| == fs.nFatEnt && Spared(g, u, ch0)
    requires EntryFits(fs, d, at, g.u, ch) && EntryFits(fs, d, at, g.u, g.ch)
    ensures EntryFits(fs, d, at, u, ch)
  {
    BothAway(fs, g, ch, u, ch0, d);
  }

  lemma LeavesSizes(fs: FatFs, g: Start, u: seq<bool>, ch: seq<nat>, l: seq<Sector>, t: seq<nat>, w: nat, x: set<int>)
    requires fs.Shape() && Leaves(fs, g, u, ch, l, t, w, x)
    ensures |u| == |g.u| == fs.nFatEnt && Spared(g, u, ch)
  {
  }

  ghost function NextScene(fp: Fil, p: Scene, i: nat): Scene
    requires fp.Core() && 0 < fp.obj.fs.cSize && i < |p.files| == |p.chains| == |p.bufs|
    reads fp, fp.obj, fp.buf, fp.obj.fs, fp.obj.fs.win, fp.obj.fs.disk
  {
    Scene(p.files[i := Visible(fp)], p.chains[i := fp.obj.chain], p.bufs[i := HoldNow(fp)], VolumeNow(fp.obj.fs))
  }

  /** After an operation on file number i that succeeded, the others are open as before. */
  lemma RestStays(fs: FatFs, files: seq<Fil>, places: seq<Place>, info: nat, i: nat, g: Start, p: Scene, op: Op)
    requires i < |files| && files[i].obj.fs == fs && files[i].Usable() && files[i].err.OK? && fs.Valid() && fs.Shape()
    requires RestOpen(fs, files, i, g, p) && RestPlaced(fs, files, places, info, i, g)
    requires Owned(fs, g.u, g.ch) && Away(fs, g.w, g.u, g.ch)
    requires var h := files[i].Now(); Leaves(fs, g, h.u, h.ch, h.l, h.t, h.w, Beyond(fs, op, places[i], info))
    ensures fs.Valid() && files[i].Core() && i < |p.files| == |p.chains| == |p.bufs| && 0 < fs.cSize
    ensures AllUsable(fs, files) && KnownBut(files, i) && Presents(fs, files, NextScene(files[i], p, i))
  {
    hide OpenAt, Fil.Usable, Fil.Own, Visible, Bare, Apart, FatFs.Logical, Used, FatFs.Table, FatFs.Valid, Leaves,
      Fil.Since, Owned, Away, HoldNow, EntryFits, InfoFits, AllAway, Beyond, Fil.Core, FatFs.Shape, Fil.Now;
    var h, x := files[i].Now(), Beyond(fs, op, places[i], info);
    NowIs(files[i]);
    files[i].ReadyFacts();
    BeyondAway(fs, op, places[i], info, g.u, g.ch);
    forall j | 0 <= j < |files| && j != i
      ensures files[j].Usable() && files[j].Core()
      ensures files[j].obj.objSize <= |files[j].data| * 512 && Visible(files[j]) == Bare(files[j])
      ensures Beside(files[j], files[i]) && Beside(files[i], files[j])
    {
      BeyondAway(fs, op, places[i], info, g.u, files[j].obj.chain);
      StaysOpen(files[j], g, h, x);
      ApartEither(files[j].obj.chain, files[i].obj.chain);
      files[j].ReadyFacts();
      BareFits(files[j], g);
    }
  }

  lemma BareFits(o: Fil, g: Start)
    requires OpenAt(o, g)
    ensures o.obj.objSize <= |o.data| * 512
  {
    OpenFacts(o, g);
    StandingFacts(o);
  }

  lemma ApartEither(a: seq<nat>, b: seq<nat>)
    requires Apart(a, b)
    ensures Apart(b, a)
  {
  }

  lemma PlacedStays(fs: FatFs, files: seq<Fil>, places: seq<Place>, info: nat, i: nat, g: Start, x: set<int>)
    requires i < |files| && files[i].obj.fs == fs && fs.Valid() && fs.Shape()
    requires RestPlaced(fs, files, places, info, i, g)
    requires var h := files[i].Now(); Leaves(fs, g, h.u, h.ch, h.l, h.t, h.w, x)
    ensures AllPlaced(fs, files, places, info)
  {
    hide FatFs.Logical, Used, FatFs.Table, FatFs.Valid, Leaves, EntryFits, InfoFits, FatFs.Shape, Fil.Now;
    var h := files[i].Now();
    NowIs(files[i]);
    LeavesSizes(fs, g, h.u, h.ch, h.l, h.t, h.w, x);
    if !fs.fsType.EXFAT? {
      forall k, j | 0 <= k < |places| && 0 <= j < |files|
        ensures EntryFits(fs, places[k].d, places[k].at, Used(fs), files[j].obj.chain)
      {
        if j == i {
          FitsStill(fs, g, h.u, h.ch, places[k].d, places[k].at);
        } else {
          FitsOther(fs, g, files[j].obj.chain, h.u, h.ch, places[k].d, places[k].at);
        }
      }
    }
  }

  // ---------------------------------------------------------------- runs

  lemma TurnFacts(fs: FatFs, ms: seq<Mode>, places: seq<Place>, info: nat, p: Scene, s: Step, o: Reply, q: Scene,
    full: bool)
    requires fs.Shape() && Turn(fs, ms, places, info, p, s, o, q, full)
    ensures s.file < |ms| == |p.files| == |q.files| == |p.bufs| == |q.bufs| == |p.chains|
    ensures Acts(ms[s.file], p.files[s.file], p.bufs[s.file].clear, s.op, o, q.files[s.file], full)
    ensures Handled(p.bufs[s.file], p.files[s.file], s.op, o, q.files[s.file], q.bufs[s.file])
    ensures forall j | 0 <= j < |ms| && j != s.file :: q.files[j] == p.files[j] && Untouched(p.bufs[j], q.bufs[j])
  {
    hide Acts, Handled, Untouched, Leaves, Packed;
  }

  lemma InterleavesMore(fs: FatFs, ms: seq<Mode>, places: seq<Place>, info: nat, scenes: seq<Scene>, steps: seq<Step>,
    outs: seq<Reply>, fulls: seq<bool>, o: Reply, q: Scene, full: bool)
    requires fs.Shape() && Interleaves(fs, ms, places, info, scenes, steps, outs, fulls) && |outs| < |steps|
    requires Turn(fs, ms, places, info, scenes[|outs|], steps[|outs|], o, q, full)
    requires Told(fs, |ms|, q) && Parted(fs, places, info, q)
    ensures Interleaves(fs, ms, places, info, scenes + [q], steps, outs + [o], fulls + [full])
  {
    hide Turn, Told, Parted;
  }

  lemma InterleavesOnce(fs: FatFs, ms: seq<Mode>, places: seq<Place>, info: nat, steps: seq<Step>, p: Scene)
    requires fs.Shape() && Told(fs, |ms|, p) && Parted(fs, places, info, p)
    ensures Interleaves(fs, ms, places, info, [p], steps, [], [])
  {
    hide Told, Parted;
  }

  /** A buffer that is in agreement with its file is not stale, and the other way round. */
  lemma ClearJust(fp: Fil)
    requires fp.Usable()
    ensures fp.Core() && 0 < fp.obj.fs.cSize && Visible(fp).pos <= |Visible(fp).bytes| == fp.obj.objSize
    ensures fp.Clear() <==> !Stale(fp.obj.fs, fp.obj.chain, fp.obj.objSize, Cache(fp.sect, fp.dirty, fp.buf[..]),
              fp.obj.fs.Logical())
  {
    hide Sectors, FatFs.Logical, FatFs.Table, FatFs.Valid, FatFs.Shape, Used, Owned, Holds, Holding, BytesOf,
      Fil.Usable;
    fp.ReadyFacts();
    fp.CoreFacts();
    fp.PointerInFile();
    if fp.dirty {
      fp.TrackedIsClear(fp.obj.objSize);
    } else {
      CleanIsOnDisk(fp.obj.fs, fp.obj.chain, Used(fp.obj.fs), fp.obj.fs.Logical(), fp.obj.fs.winSect, fp.data,
        fp.Buffer());
    }
  }

  lemma ToldNow(fs: FatFs, files: seq<Fil>, p: Scene)
    requires fs.Valid() && AllUsable(fs, files) && Presents(fs, files, p)
    ensures Told(fs, |files|, p)
  {
    hide Fil.Core, Fil.Usable, Stale, Fil.Clear, Fil.Own, FatFs.Logical, FatFs.Table, Used, BytesOf, Laid;
    forall i | 0 <= i < |files|
      ensures p.files[i].pos <= |p.files[i].bytes| && (p.bufs[i].clear <==> !StaleIn(fs, p, i))
      ensures files[i].dirty ==> files[i].modified
      ensures !fs.fsType.EXFAT? && !files[i].dirty ==>
                Laid(fs, fs.Logical(), ON_FAT, files[i].obj.chain, p.files[i].bytes)
    {
      files[i].ReadyFacts();
      ClearJust(files[i]);
      VisibleParts(files[i]);
      if !fs.fsType.EXFAT? && !files[i].dirty {
        LaidNow(files[i]);
        StatusOnFat(files[i].obj);
      }
    }
  }

  lemma PartedNow(fs: FatFs, files: seq<Fil>, places: seq<Place>, info: nat, p: Scene)
    requires fs.Valid() && AllUsable(fs, files) && Presents(fs, files, p) && AllPlaced(fs, files, places, info)
    ensures fs.Shape() && Parted(fs, places, info, p)
  {
    hide Fil.Core, Fil.Usable, Fil.Clear, Fil.Own, FatFs.Logical, FatFs.Table, FatFs.Valid, FatFs.Shape, Used,
      EntryFits, InfoFits, HoldNow, Visible, Owned, TableOn, UsedOn, InTable, Apart;
    VolumeFacts(fs);
    OnLogical(fs);
    LogicalSize(fs);
    forall i | 0 <= i < |files|
      ensures InTable(fs.nFatEnt, files[i].obj.chain) && Owned(fs, Used(fs), files[i].obj.chain)
    {
      files[i].ReadyFacts();
      files[i].CoreFacts();
    }
  }

  lemma LogicalSize(fs: FatFs)
    requires fs.Valid()
    ensures |fs.Logical()| == fs.disk.size
  {
  }

  /** Before another file is operated on, a buffer with a sector that is not the file's is forgotten. */
  ghost method ForgetLast(fs: FatFs, files: seq<Fil>, places: seq<Place>, info: nat, last: int, p: Scene)
    returns (q: Scene)
    requires fs.Valid() && AllUsable(fs, files) && KnownBut(files, last) && Presents(fs, files, p)
    requires AllPlaced(fs, files, places, info)
    modifies set i | 0 <= i < |files| :: files[i]`tracked
    ensures fs.Valid() && AllUsable(fs, files) && KnownBut(files, -1) && Presents(fs, files, q)
    ensures AllPlaced(fs, files, places, info)
    ensures |q.bufs| == |p.bufs| && q == p.(bufs := q.bufs)
    ensures forall j | 0 <= j < |p.bufs| :: Untouched(p.bufs[j], q.bufs[j]) && (j != last ==> q.bufs[j] == p.bufs[j])
  {
    hide Fil.Usable, Fil.Core, Fil.Own, Visible, Apart, FatFs.Logical, Used, FatFs.Table, FatFs.Valid, EntryFits,
      InfoFits, VolumeNow, Fil.Clear;
    q := p;
    if 0 <= last < |files| {
      files[last].ReadyFacts();
      Forget(files[last]);
      files[last].ReadyFacts();
      q := p.(bufs := p.bufs[last := HoldNow(files[last])]);
    }
  }

  /** The two together. */
  lemma AllStay(fs: FatFs, files: seq<Fil>, places: seq<Place>, info: nat, i: nat, g: Start, p: Scene, op: Op)
    requires i < |files| && files[i].obj.fs == fs && files[i].Usable() && files[i].err.OK? && fs.Valid() && fs.Shape()
    requires RestOpen(fs, files, i, g, p) && RestPlaced(fs, files, places, info, i, g)
    requires i < |places| && Owned(fs, g.u, g.ch) && Away(fs, g.w, g.u, g.ch)
    requires var h := files[i].Now(); Leaves(fs, g, h.u, h.ch, h.l, h.t, h.w, Beyond(fs, op, places[i], info))
    ensures fs.Valid() && files[i].Core() && i < |p.files| == |p.chains| == |p.bufs| && 0 < fs.cSize
    ensures AllUsable(fs, files) && KnownBut(files, i) && Presents(fs, files, NextScene(files[i], p, i))
    ensures AllPlaced(fs, files, places, info)
  {
    hide *;
    RestStays(fs, files, places, info, i, g, p, op);
    PlacedStays(fs, files, places, info, i, g, Beyond(fs, op, places[i], info));
  }

  /** The step that was taken on file number i; p0 is the scene before a buffer was forgotten. */
  lemma TurnTaken(fp: Fil, ms: seq<Mode>, places: seq<Place>, info: nat, p0: Scene, p: Scene, s: Step, o: Reply,
    full: bool, g: Start)
    requires fp.Usable() && fp.Core() && fp.obj.fs.Valid() && fp.obj.fs.Shape() && 0 < fp.obj.fs.cSize
    requires s.file < |ms| == |places| == |p.files| == |p.chains| == |p.bufs| && From(p, s.file) == g
    requires |p.bufs| == |p0.bufs| && p == p0.(bufs := p.bufs) && p.bufs[s.file] == p0.bufs[s.file]
    requires forall j | 0 <= j < |p0.bufs| :: Untouched(p0.bufs[j], p.bufs[j])
    requires Acts(ms[s.file], p.files[s.file], p.bufs[s.file].clear, s.op, o, Visible(fp), full)
    requires Handled(p.bufs[s.file], p.files[s.file], s.op, o, Visible(fp), HoldNow(fp))
    requires var h := fp.Now();
      && Leaves(fp.obj.fs, g, h.u, h.ch, h.l, h.t, h.w, Beyond(fp.obj.fs, s.op, places[s.file], info))
      && FreeKept(g, h) && (full ==> Packed(h))
    requires Whole(fp.obj.fs, s.op) ==>
               Stored(fp.obj.fs, places[s.file], fp.obj.chain, Visible(fp).bytes, p.bufs[s.file].changed, fp.modified,
                 g.l, fp.obj.fs.Logical())
    ensures Turn(fp.obj.fs, ms, places, info, p0, s, o, NextScene(fp, p, s.file), full)
    ensures WasBroken(NextScene(fp, p, s.file).vol) ==> WasBroken(p0.vol)
  {
    hide Acts, Handled, Leaves, Stored, Fil.Usable, Fil.Core, FatFs.Logical, Used, FatFs.Table, FatFs.Valid,
      FatFs.Shape, Beyond, Visible, CountOk, LinksKept, Fil.Clear, Fil.Own;
    VisibleBounds(fp);
    var h := fp.Now();
    LeavesFacts(fp.obj.fs, g, h.u, h.ch, h.l, h.t, h.w, Beyond(fp.obj.fs, s.op, places[s.file], info));
    if WasBroken(h) {
      BrokenBefore(g, h.t);
    }
  }

  lemma BrokenIs(p: Scene, i: nat)
    requires i < |p.chains|
    ensures WasBroken(From(p, i)) <==> WasBroken(p.vol)
  {
  }

  /** One step on its file.  Only file number last0 may have a buffer that shows the disk though its sector is not the
      file's; after the step it is the file of the step. */
  method OneTurn(fs: FatFs, files: seq<Fil>, places: seq<Place>, info: nat, s: Step, ghost p: Scene, ghost last0: int)
    returns (res: FResult, o: Reply, sound: bool, ghost q: Scene, ghost full: bool)
    requires fs.Valid() && AllUsable(fs, files) && KnownBut(files, last0) && Presents(fs, files, p)
    requires AllPlaced(fs, files, places, info) && s.file < |files|
    requires s.op.WriteOp? ==> |s.op.bytes| < 0x1_0000_0000
    modifies files, set i | 0 <= i < |files| :: files[i].obj
    modifies set i | 0 <= i < |files| :: files[i].buf
    modifies fs, fs.win, fs.disk
    ensures fs.Shape() && (res.OK? || res.DiskErr? || res.IntErr?)
    ensures res.OK? && sound ==> fs.Valid() && AllUsable(fs, files) && KnownBut(files, s.file)
    ensures res.OK? && sound ==> Presents(fs, files, q) && AllPlaced(fs, files, places, info)
    ensures res.OK? && sound ==> Turn(fs, Modes(files), places, info, p, s, o, q, full)
    ensures res.OK? && sound ==>
              Told(fs, |files|, q) && Parted(fs, places, info, q) && (WasBroken(q.vol) ==> WasBroken(p.vol))
    ensures (sound ==> fs.Valid()) && (res.IntErr? ==> sound && WasBroken(p.vol))
    ensures |old(fs.disk.script)| == 0 ==> sound && !res.DiskErr? && (res.OK? ==> |fs.disk.script| == 0)
  {
    hide *;
    VolumeFacts(fs);
    PlacedCount(fs, files, places, info);
    var i := s.file;
    var fp := files[i];
    q := p;
    if last0 != i {
      q := ForgetLast(fs, files, places, info, last0, p);
      KnownMore(files, i);
    } else {
      UntouchedSelf(p);
    }
    RestNow(fs, files, i, q);
    PlacedNow(fs, files, places, info, i, s.op);
    ghost var g, p' := fp.Now(), q;
    BrokenIs(p', i);
    NowIs(fp);
    HoldIs(fp);
    res, o, sound, full := Take(fp, s, places[i], info);
    if res.OK? && sound {
      AllStay(fs, files, places, info, i, g, p', s.op);
      TurnTaken(fp, Modes(files), places, info, p, p', s, o, full, g);
      q := NextScene(fp, p', i);
      ToldNow(fs, files, q);
      PartedNow(fs, files, places, info, q);
    }
  }

  /** The operations one after the other, each on its file, up to the first that fails.  Only file number last0 may
      have a buffer that shows the disk though its sector is not the file's; after the run it is number last. */
  method PerformTogether(fs: FatFs, files: seq<Fil>, places: seq<Place>, info: nat, steps: seq<Step>, ghost p: Scene,
    ghost last0: int)
    returns (res: FResult, outs: seq<Reply>, ghost scenes: seq<Scene>, ghost fulls: seq<bool>, ghost last: int,
      sound: bool)
    requires fs.Valid() && AllUsable(fs, files) && KnownBut(files, last0) && Presents(fs, files, p)
    requires AllPlaced(fs, files, places, info)
    requires forall k | 0 <= k < |steps| :: steps[k].file < |files|
    requires forall k | 0 <= k < |steps| :: steps[k].op.WriteOp? ==> |steps[k].op.bytes| < 0x1_0000_0000
    modifies files, set i | 0 <= i < |files| :: files[i].obj
    modifies set i | 0 <= i < |files| :: files[i].buf
    modifies fs, fs.win, fs.disk
    ensures fs.Shape() && Interleaves(fs, Modes(files), places, info, scenes, steps, outs, fulls) && scenes[0] == p
    ensures (res.OK? && sound <==> |outs| == |steps|)
    ensures res.OK? && sound ==> fs.Valid() && AllUsable(fs, files) && KnownBut(files, last)
    ensures res.OK? && sound ==> Presents(fs, files, scenes[|outs|]) && AllPlaced(fs, files, places, info)
    ensures res.OK? || res.DiskErr? || res.IntErr?
    ensures (sound ==> fs.Valid()) && (res.IntErr? ==> sound && WasBroken(p.vol))
    ensures |old(fs.disk.script)| == 0 ==> sound && !res.DiskErr? && (res.OK? ==> |fs.disk.script| == 0)
  {
    hide *;
    VolumeFacts(fs);
    ghost var ms := Modes(files);
    ToldNow(fs, files, p);
    PartedNow(fs, files, places, info, p);
    InterleavesOnce(fs, ms, places, info, steps, p);
    res, outs, scenes, fulls, last, sound := OK, [], [p], [], last0, true;
    var n := 0;
    while n < |steps|
      invariant 0 <= n <= |steps| && |outs| == n && res.OK? && sound
      invariant fs.Valid() && fs.Shape() && AllUsable(fs, files) && KnownBut(files, last)
      invariant AllPlaced(fs, files, places, info)
      invariant Interleaves(fs, ms, places, info, scenes, steps, outs, fulls) && |scenes| == n + 1 && scenes[0] == p
      invariant Presents(fs, files, scenes[n])
      invariant WasBroken(scenes[n].vol) ==> WasBroken(p.vol)
      invariant |old(fs.disk.script)| == 0 ==> |fs.disk.script| == 0
    {
      var o;
      ghost var q, full;
      res, o, sound, q, full := OneTurn(fs, files, places, info, steps[n], scenes[n], last);
      if !res.OK? || !sound {
        return;
      }
      InterleavesMore(fs, ms, places, info, scenes, steps, outs, fulls, o, q, full);
      last, scenes, outs, fulls, n := steps[n].file, scenes + [q], outs + [o], fulls + [full], n + 1;
    }
  }

  lemma KnownMore(files: seq<Fil>, i: int)
    requires KnownBut(files, -1)
    ensures KnownBut(files, i)
  {
    hide Fil.Own;
  }

  lemma UntouchedSelf(p: Scene)
    ensures forall j | 0 <= j < |p.bufs| :: Untouched(p.bufs[j], p.bufs[j])
  {
  }

  lemma PlacedCount(fs: FatFs, files: seq<Fil>, places: seq<Place>, info: nat)
    requires fs.Valid() && AllPlaced(fs, files, places, info)
    ensures |places| == |files|
  {
    hide EntryFits, InfoFits;
  }

  // ---------------------------------------------------------------- what one file sees of such a run

  /** What of the first n entries belongs to the steps on file i. */
  function Part<T>(xs: seq<T>, steps: seq<Step>, i: nat, n: nat): seq<T>
    requires n <= |xs| && n <= |steps|
  {
    if n == 0 then [] else Part(xs, steps, i, n - 1) + if steps[n - 1].file == i then [xs[n - 1]] else []
  }

  function Ops(steps: seq<Step>, i: nat, n: nat): seq<Op>
    requires n <= |steps|
  {
    if n == 0 then [] else Ops(steps, i, n - 1) + if steps[n - 1].file == i then [steps[n - 1].op] else []
  }

  /** The states of file i, before the first and after every step on it. */
  function States(scenes: seq<Scene>, steps: seq<Step>, i: nat, n: nat): seq<Plain>
    requires n <= |steps| && n < |scenes| && forall k | 0 <= k < |scenes| :: i < |scenes[k].files|
  {
    if n == 0 then [scenes[0].files[i]]
    else States(scenes, steps, i, n - 1) + if steps[n - 1].file == i then [scenes[n].files[i]] else []
  }

  lemma ToldFacts(fs: FatFs, n: nat, p: Scene, i: nat)
    requires Told(fs, n, p) && i < n
    ensures 0 < fs.cSize && |p.files| == |p.chains| == |p.bufs| == n
    ensures p.files[i].pos <= |p.files[i].bytes| && (p.bufs[i].clear <==> !StaleIn(fs, p, i))
  {
    hide StaleIn, Laid;
  }

  lemma SceneSizes(fs: FatFs, ms: seq<Mode>, places: seq<Place>, info: nat, scenes: seq<Scene>, steps: seq<Step>,
    outs: seq<Reply>, fulls: seq<bool>)
    requires fs.Shape() && Interleaves(fs, ms, places, info, scenes, steps, outs, fulls)
    ensures forall m | 0 <= m < |scenes| ::
              |scenes[m].files| == |scenes[m].chains| == |scenes[m].bufs| == |ms| && |scenes[m].vol.l| == fs.disk.size
  {
    hide Turn, StaleIn, Laid;
  }

  lemma MoreToDo(m: Mode, states: seq<Plain>, ops: seq<Op>, outs: seq<Reply>, fulls: seq<bool>, op: Op)
    requires Explains(m, states, ops, outs, fulls)
    ensures Explains(m, states, ops + [op], outs, fulls)
  {
  }

  /** In a run over several files, one whose buffer is in agreement with it whenever that is looked at goes through a
      run of its own: the operations on the others do not show. */
  lemma {:induction false} EachAlone(fs: FatFs, ms: seq<Mode>, places: seq<Place>, info: nat, scenes: seq<Scene>,
    steps: seq<Step>, outs: seq<Reply>, fulls: seq<bool>, i: nat, n: nat)
    requires fs.Shape() && Interleaves(fs, ms, places, info, scenes, steps, outs, fulls) && i < |ms| && n <= |outs|
    requires forall k | 0 <= k < n && steps[k].file == i && Looks(steps[k].op) :: scenes[k].bufs[i].clear
    ensures var states := States(scenes, steps, i, n);
      && |states| > 0 && states[|states| - 1] == scenes[n].files[i]
      && |Part(outs, steps, i, n)| == |Ops(steps, i, n)|
      && Explains(ms[i], states, Ops(steps, i, n), Part(outs, steps, i, n), Part(fulls, steps, i, n))
  {
    hide Does, Turn, Moves, Looks, Handled, Untouched, StaleIn, Told, Parted;
    SceneSizes(fs, ms, places, info, scenes, steps, outs, fulls);
    ToldFacts(fs, |ms|, scenes[n], i);
    if n > 0 {
      EachAlone(fs, ms, places, info, scenes, steps, outs, fulls, i, n - 1);
      TurnFacts(fs, ms, places, info, scenes[n - 1], steps[n - 1], outs[n - 1], scenes[n], fulls[n - 1]);
      var states, ops := States(scenes, steps, i, n - 1), Ops(steps, i, n - 1);
      var os, qs := Part(outs, steps, i, n - 1), Part(fulls, steps, i, n - 1);
      if steps[n - 1].file == i {
        MoreToDo(ms[i], states, ops, os, qs, steps[n - 1].op);
        ExplainsMore(ms[i], states, ops + [steps[n - 1].op], os, qs, outs[n - 1], scenes[n].files[i], fulls[n - 1]);
      } else {
        assert scenes[n].files[i] == scenes[n - 1].files[i];
      }
    }
  }

  // ---------------------------------------------------------------- how long that lasts

  /** Step a cut file i off at a sector border. */
  ghost predicate LoosenedAt(scenes: seq<Scene>, steps: seq<Step>, outs: seq<Reply>, i: nat, a: nat)
    requires a < |scenes| && a < |steps| && a < |outs| && i < |scenes[a].files|
  {
    steps[a].file == i && Loosens(scenes[a].files[i], steps[a].op, outs[a])
  }

  /** File i was cut off at a sector border, and later, before step n, something was done to another file, or file i
      was synchronized. */
  ghost predicate Disturbed(scenes: seq<Scene>, steps: seq<Step>, outs: seq<Reply>, i: nat, n: nat)
    requires n <= |outs| <= |steps| && n < |scenes| && forall k | 0 <= k < |scenes| :: i < |scenes[k].files|
  {
    exists a, b | 0 <= a < b < n :: LoosenedAt(scenes, steps, outs, i, a) && (steps[b].file != i || steps[b].op.SyncOp?)
  }

  lemma {:induction false} OwnWhile(fs: FatFs, ms: seq<Mode>, places: seq<Place>, info: nat, scenes: seq<Scene>,
    steps: seq<Step>, outs: seq<Reply>, fulls: seq<bool>, i: nat, n: nat)
    requires fs.Shape() && Interleaves(fs, ms, places, info, scenes, steps, outs, fulls) && i < |ms| && n <= |outs|
    requires scenes[0].bufs[i].own && forall a | 0 <= a < n :: !LoosenedAt(scenes, steps, outs, i, a)
    ensures scenes[n].bufs[i].own
  {
    hide Turn, Loosens, Told, Parted;
    SceneSizes(fs, ms, places, info, scenes, steps, outs, fulls);
    if n > 0 {
      OwnWhile(fs, ms, places, info, scenes, steps, outs, fulls, i, n - 1);
      TurnFacts(fs, ms, places, info, scenes[n - 1], steps[n - 1], outs[n - 1], scenes[n], fulls[n - 1]);
      assert !LoosenedAt(scenes, steps, outs, i, n - 1);
    }
  }

  /** Until then the buffer shows what is on the disk, or is newer. */
  lemma {:induction false} SureWhile(fs: FatFs, ms: seq<Mode>, places: seq<Place>, info: nat, scenes: seq<Scene>,
    steps: seq<Step>, outs: seq<Reply>, fulls: seq<bool>, i: nat, n: nat)
    requires fs.Shape() && Interleaves(fs, ms, places, info, scenes, steps, outs, fulls) && i < |ms| && n <= |outs|
    requires scenes[0].bufs[i].own && scenes[0].bufs[i].sure && !Disturbed(scenes, steps, outs, i, n)
    ensures scenes[n].bufs[i].sure
  {
    hide Turn, Loosens, Lengthened, Told, Parted;
    SceneSizes(fs, ms, places, info, scenes, steps, outs, fulls);
    if n > 0 {
      var b := n - 1;
      SureWhile(fs, ms, places, info, scenes, steps, outs, fulls, i, b);
      TurnFacts(fs, ms, places, info, scenes[b], steps[b], outs[b], scenes[n], fulls[b]);
      if steps[b].file != i || steps[b].op.SyncOp? {
        forall a | 0 <= a < b
          ensures !LoosenedAt(scenes, steps, outs, i, a)
        {
          if LoosenedAt(scenes, steps, outs, i, a) {
            assert false;
          }
        }
        OwnWhile(fs, ms, places, info, scenes, steps, outs, fulls, i, b);
      }
    }
  }

  /** Step c is a seek that makes file i longer after it was disturbed, and brings the sector in its buffer back below
      its size, while the disk holds something else there. */
  ghost predicate Spoils(fs: FatFs, scenes: seq<Scene>, steps: seq<Step>, outs: seq<Reply>, i: nat, c: nat)
    requires 0 < fs.cSize && c < |outs| <= |steps| && |outs| < |scenes|
    requires forall k | 0 <= k < |scenes| :: i < |scenes[k].files| == |scenes[k].chains| == |scenes[k].bufs|
  {
    && Disturbed(scenes, steps, outs, i, c) && steps[c].file == i
    && Lengthened(scenes[c].files[i], steps[c].op, scenes[c + 1].files[i]) && StaleIn(fs, scenes[c + 1], i)
  }

  lemma {:induction false} ClearWhile(fs: FatFs, ms: seq<Mode>, places: seq<Place>, info: nat, scenes: seq<Scene>,
    steps: seq<Step>, outs: seq<Reply>, fulls: seq<bool>, i: nat, n: nat)
    requires fs.Shape() && 0 < fs.cSize && i < |ms| && n <= |outs|
    requires Interleaves(fs, ms, places, info, scenes, steps, outs, fulls)
    requires var b := scenes[0].bufs[i]; b.clear && b.sure && b.own
    requires forall c | 0 <= c < n :: !Spoils(fs, scenes, steps, outs, i, c)
    ensures scenes[n].bufs[i].clear
  {
    hide Turn, Loosens, Disturbed, StaleIn, Told, Parted;
    SceneSizes(fs, ms, places, info, scenes, steps, outs, fulls);
    ToldFacts(fs, |ms|, scenes[n], i);
    if n > 0 {
      var c := n - 1;
      ClearWhile(fs, ms, places, info, scenes, steps, outs, fulls, i, c);
      TurnFacts(fs, ms, places, info, scenes[c], steps[c], outs[c], scenes[n], fulls[c]);
      assert !Spoils(fs, scenes, steps, outs, i, c);
      if steps[c].file == i && Lengthened(scenes[c].files[i], steps[c].op, scenes[n].files[i])
          && !Disturbed(scenes, steps, outs, i, c) {
        SureWhile(fs, ms, places, info, scenes, steps, outs, fulls, i, c);
      }
    }
  }

  /** The buffer of a file that was just opened is in agreement with it all the time just when no seek spoils that. */
  lemma ClearJustWhile(fs: FatFs, ms: seq<Mode>, places: seq<Place>, info: nat, scenes: seq<Scene>, steps: seq<Step>,
    outs: seq<Reply>, fulls: seq<bool>, i: nat, n: nat)
    requires fs.Shape() && 0 < fs.cSize && i < |ms| && n <= |outs|
    requires Interleaves(fs, ms, places, info, scenes, steps, outs, fulls)
    requires var b := scenes[0].bufs[i]; b.clear && b.sure && b.own
    ensures (forall k | 0 <= k <= n :: scenes[k].bufs[i].clear)
       <==> (forall c | 0 <= c < n :: !Spoils(fs, scenes, steps, outs, i, c))
  {
    hide Turn, Loosens, Disturbed, StaleIn, Lengthened, Told, Parted;
    SceneSizes(fs, ms, places, info, scenes, steps, outs, fulls);
    if forall k | 0 <= k <= n :: scenes[k].bufs[i].clear {
      forall c | 0 <= c < n
        ensures !Spoils(fs, scenes, steps, outs, i, c)
      {
        ToldFacts(fs, |ms|, scenes[c + 1], i);
      }
    }
    if forall c | 0 <= c < n :: !Spoils(fs, scenes, steps, outs, i, c) {
      forall k | 0 <= k <= n
        ensures scenes[k].bufs[i].clear
      {
        ClearWhile(fs, ms, places, info, scenes, steps, outs, fulls, i, k);
      }
    }
  }

  /** So a file that was just opened goes through a run of its own until a seek spoils that. */
  lemma PlainUntil(fs: FatFs, ms: seq<Mode>, places: seq<Place>, info: nat, scenes: seq<Scene>, steps: seq<Step>,
    outs: seq<Reply>, fulls: seq<bool>, i: nat, n: nat)
    requires fs.Shape() && 0 < fs.cSize && i < |ms| && n <= |outs|
    requires Interleaves(fs, ms, places, info, scenes, steps, outs, fulls)
    requires var b := scenes[0].bufs[i]; b.clear && b.sure && b.own
    requires forall c | 0 <= c < n :: !Spoils(fs, scenes, steps, outs, i, c)
    ensures Explains(ms[i], States(scenes, steps, i, n), Ops(steps, i, n), Part(outs, steps, i, n),
              Part(fulls, steps, i, n))
  {
    hide Turn, Loosens, Disturbed, Explains, Spoils, Told, Parted;
    SceneSizes(fs, ms, places, info, scenes, steps, outs, fulls);
    ClearJustWhile(fs, ms, places, info, scenes, steps, outs, fulls, i, n);
    EachAlone(fs, ms, places, info, scenes, steps, outs, fulls, i, n);
  }
}
