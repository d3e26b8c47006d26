/** Files that were synchronized in a run over several files: they outlast what is done to the others, and the mount. */
module Lasting {
  import opened Disks
  import opened FatCodes
  import opened Volumes
  import opened Chains
  import opened ObjChains
  import opened Objects
  import opened Caches
  import opened Files
  import opened Runs
  import opened Sharing
  import opened Durability
  import opened Together

  /** No two directory entries have a byte in common. */
  ghost predicate Separate(places: seq<Place>) {
    forall i, j | 0 <= i < |places| && 0 <= j < |places| && i != j && places[i].d == places[j].d ::
      places[i].at + 32 <= places[j].at || places[j].at + 32 <= places[i].at
  }

  /** The entry of a file stays when another entry of the same sector is stored. */
  lemma OtherEntry(t: FsType, b: seq<byte>, c: seq<byte>, at: nat, other: nat)
    requires SameAround(b, c, other + 11, other + 32) && at + 32 <= |b|
    requires at + 32 <= other || other + 32 <= at
    ensures LdClust(t, c, at) == LdClust(t, b, at) && Dword(c, at + 28) == Dword(b, at + 28)
  {
    hide SameAround, Word;
    SameWord(b, c, other + 11, other + 32, at + 20);
    SameWord(b, c, other + 11, other + 32, at + 26);
    SameWord(b, c, other + 11, other + 32, at + 28);
    SameWord(b, c, other + 11, other + 32, at + 30);
  }

  /** Where a file with the clusters ch starts. */
  function First(ch: seq<nat>): nat {
    if ch == [] then 0 else ch[0]
  }

  /** The directory entry says that the file starts with cluster c and has n bytes. */
  ghost predicate Says(fs: FatFs, place: Place, l: seq<Sector>, c: nat, n: nat) {
    && place.d < |l| && place.at + 32 <= 512
    && LdClust(fs.fsType, l[place.d], place.at) == c && Dword(l[place.d], place.at + 28) == n
  }

  /** Step k is a whole f_sync() of file i, which has changed. */
  ghost predicate SyncedAt(fs: FatFs, scenes: seq<Scene>, steps: seq<Step>, i: nat, k: nat)
    requires k < |steps| && k < |scenes| && i < |scenes[k].bufs|
  {
    steps[k].file == i && Whole(fs, steps[k].op) && scenes[k].bufs[i].changed
  }

  /** Nothing but such a step changes the directory entry of a file. */
  lemma SaysStill(fs: FatFs, ms: seq<Mode>, places: seq<Place>, info: nat, p: Scene, s: Step, o: Reply, q: Scene,
    full: bool, i: nat, c: nat, n: nat)
    requires fs.Shape() && !fs.fsType.EXFAT? && Separate(places) && Turn(fs, ms, places, info, p, s, o, q, full)
    requires Parted(fs, places, info, p) && |q.vol.l| == fs.disk.size && i < |places|
    requires s.file == i && Whole(fs, s.op) ==> !p.bufs[i].changed
    requires Says(fs, places[i], p.vol.l, c, n)
    ensures Says(fs, places[i], q.vol.l, c, n)
  {
    hide Owned, LdClust, Dword, Away, Acts, Handled, Untouched, UsedOn, TableOn, Stays, LinksKept, FatFs.Shape,
      SameAround, Packed, Recorded;
    var j, d, at := s.file, places[i].d, places[i].at;
    if d !in Beyond(fs, s.op, places[j], info) || i == j {
      assert q.vol.l[d] == p.vol.l[d];
    } else {
      OtherEntry(fs.fsType, p.vol.l[d], q.vol.l[d], at, places[j].at);
    }
  }

  lemma SyncKeeps(m: Mode, p: Plain, clear: bool, op: Op, o: Reply, q: Plain, full: bool)
    requires op.SyncOp? && Acts(m, p, clear, op, o, q, full)
    ensures q == p
  {
  }

  /** After a whole f_sync() the entry tells start and size of the file, until the next that has something to store. */
  lemma {:induction false} SaysWhile(fs: FatFs, ms: seq<Mode>, places: seq<Place>, info: nat, scenes: seq<Scene>,
    steps: seq<Step>, outs: seq<Reply>, fulls: seq<bool>, i: nat, k: nat, n: nat)
    requires fs.Shape() && Separate(places) && Interleaves(fs, ms, places, info, scenes, steps, outs, fulls)
    requires i < |ms| == |places| && k < n <= |outs| && SyncedAt(fs, scenes, steps, i, k)
    requires forall m | k < m < n :: !SyncedAt(fs, scenes, steps, i, m)
    ensures Says(fs, places[i], scenes[n].vol.l, First(scenes[k + 1].chains[i]), |scenes[k].files[i].bytes|)
  {
    hide Acts, Handled, Untouched, Leaves, Packed, Laid, EntryFits, LdClust, Dword, StaleIn, Owned, UsedOn, TableOn;
    assert Turn(fs, ms, places, info, scenes[k], steps[k], outs[k], scenes[k + 1], fulls[k]);
    SyncKeeps(ms[i], scenes[k].files[i], scenes[k].bufs[i].clear, steps[k].op, outs[k], scenes[k + 1].files[i],
      fulls[k]);
    var m := n - 1;
    if m > k {
      SaysWhile(fs, ms, places, info, scenes, steps, outs, fulls, i, k, m);
      assert !SyncedAt(fs, scenes, steps, i, m);
      SaysStill(fs, ms, places, info, scenes[m], steps[m], outs[m], scenes[n], fulls[m], i,
        First(scenes[k + 1].chains[i]), |scenes[k].files[i].bytes|);
    }
  }

  /** So a synchronized file is recorded on the disk with what is in it, whenever its buffer is clean and its start and
      its size are those it had then; whatever is done to other files. */
  lemma RecordedWhile(fs: FatFs, ms: seq<Mode>, places: seq<Place>, info: nat, scenes: seq<Scene>, steps: seq<Step>,
    outs: seq<Reply>, fulls: seq<bool>, i: nat, k: nat, n: nat)
    requires fs.Shape() && Separate(places) && Interleaves(fs, ms, places, info, scenes, steps, outs, fulls)
    requires i < |ms| == |places| && k < n <= |outs| && SyncedAt(fs, scenes, steps, i, k)
    requires forall m | k < m < n :: !SyncedAt(fs, scenes, steps, i, m)
    requires !scenes[n].bufs[i].shown.dirty && |scenes[n].files[i].bytes| == |scenes[k].files[i].bytes|
    requires First(scenes[n].chains[i]) == First(scenes[k + 1].chains[i])
    ensures Recorded(fs, scenes[n].vol.l, places[i].d, places[i].at, scenes[n].chains[i], scenes[n].files[i].bytes)
  {
    hide Turn, Laid, EntryFits, LdClust, Dword, StaleIn, Owned, UsedOn, TableOn, Apart;
    SaysWhile(fs, ms, places, info, scenes, steps, outs, fulls, i, k, n);
    RecordedIs(fs, scenes[n].vol.l, places[i].d, places[i].at, scenes[n].chains[i], scenes[n].files[i].bytes);
  }

  /** A file that nothing was done to since then is recorded as it was. */
  lemma {:induction false} SyncedStays(fs: FatFs, ms: seq<Mode>, places: seq<Place>, info: nat, scenes: seq<Scene>,
    steps: seq<Step>, outs: seq<Reply>, fulls: seq<bool>, i: nat, k: nat, n: nat)
    requires fs.Shape() && Separate(places) && Interleaves(fs, ms, places, info, scenes, steps, outs, fulls)
    requires i < |ms| == |places| && k < n <= |outs| && SyncedAt(fs, scenes, steps, i, k)
    requires forall m | k < m < n :: steps[m].file != i
    ensures Recorded(fs, scenes[n].vol.l, places[i].d, places[i].at, scenes[n].chains[i], scenes[k].files[i].bytes)
  {
    hide Laid, EntryFits, LdClust, Dword, StaleIn, Owned, UsedOn, TableOn, Apart;
    SameWhile(fs, ms, places, info, scenes, steps, outs, fulls, i, k, n);
    RecordedWhile(fs, ms, places, info, scenes, steps, outs, fulls, i, k, n);
  }

  lemma {:induction false} SameWhile(fs: FatFs, ms: seq<Mode>, places: seq<Place>, info: nat, scenes: seq<Scene>,
    steps: seq<Step>, outs: seq<Reply>, fulls: seq<bool>, i: nat, k: nat, n: nat)
    requires fs.Shape() && Interleaves(fs, ms, places, info, scenes, steps, outs, fulls)
    requires i < |ms| == |places| && k < n <= |outs| && SyncedAt(fs, scenes, steps, i, k)
    requires forall m | k < m < n :: steps[m].file != i
    ensures scenes[n].files[i].bytes == scenes[k].files[i].bytes && scenes[n].chains[i] == scenes[k + 1].chains[i]
    ensures !scenes[n].bufs[i].shown.dirty
  {
    hide Acts, Handled, Leaves, Packed, Laid, EntryFits, LdClust, Dword, StaleIn, Owned, UsedOn, TableOn, Recorded;
    assert Turn(fs, ms, places, info, scenes[k], steps[k], outs[k], scenes[k + 1], fulls[k]);
    SyncKeeps(ms[i], scenes[k].files[i], scenes[k].bufs[i].clear, steps[k].op, outs[k], scenes[k + 1].files[i],
      fulls[k]);
    var m := n - 1;
    if m > k {
      SameWhile(fs, ms, places, info, scenes, steps, outs, fulls, i, k, m);
      assert Turn(fs, ms, places, info, scenes[m], steps[m], outs[m], scenes[n], fulls[m]);
    }
  }

  /** A write marks the file as changed, until it is synchronized. */
  lemma {:induction false} ChangedWhile(fs: FatFs, ms: seq<Mode>, places: seq<Place>, info: nat, scenes: seq<Scene>,
    steps: seq<Step>, outs: seq<Reply>, fulls: seq<bool>, i: nat, a: nat, k: nat)
    requires fs.Shape() && Interleaves(fs, ms, places, info, scenes, steps, outs, fulls)
    requires i < |ms| && a < k <= |outs| && steps[a].file == i && steps[a].op.WriteOp? && ms[i].writing
    requires forall m | a < m < k && steps[m].file == i :: !steps[m].op.SyncOp?
    ensures |scenes[k].bufs| == |ms| && scenes[k].bufs[i].changed
  {
    hide Turn, Told, Parted, Works, Does;
    var m := k - 1;
    if m > a {
      ChangedWhile(fs, ms, places, info, scenes, steps, outs, fulls, i, a, m);
    }
    TurnFacts(fs, ms, places, info, scenes[m], steps[m], outs[m], scenes[k], fulls[m]);
  }

  /** The window is written back, as by sync_fs(); then a mount that knows nothing but what is on the device opens a
      file that is recorded. */
  method Reopen(fs: FatFs, place: Place, reading: bool, writing: bool, ghost ch: seq<nat>, ghost bytes: seq<byte>)
    returns (res: FResult, fq: Fil?)
    requires fs.Valid() && !fs.fsType.EXFAT? && Recorded(fs, fs.Logical(), place.d, place.at, ch, bytes)
    modifies fs`wFlag, fs.disk`sec, fs.disk`script
    ensures (res.OK? || res.DiskErr?) && (res.OK? <==> fq != null)
    ensures fq != null ==>
              fresh(fq) && fresh(fq.obj.fs) && fq.obj.fs.disk == fs.disk && SameLayout(fs, fq.obj.fs)
              && fq.Ready() && fq.err.OK? && fq.Content() == bytes && fq.fptr == 0
    ensures |old(fs.disk.script)| == 0 ==> res.OK?
  {
    hide Fil.Core, Fil.Ready, Recorded, FatFs.Valid, FatFs.Logical, FatFs.Shape;
    fq := null;
    ghost var l := fs.Logical();
    res := fs.SyncWindow();
    if res.OK? {
      CleanWindow(fs);
      DiskWhole(fs);
      VolumeFacts(fs);
      RecordedAside(fs, l, fs.disk.sec, place.d, place.at, ch, bytes);
      var b := MountAgain(fs);
      VolumeFacts(b);
      StillRecorded(fs, b, b.Logical(), place.d, place.at, ch, bytes);
      res, fq := OpenRecorded(b, place.d, place.at, reading, writing, ch, bytes);
    }
  }

  /** The second FAT does not matter. */
  lemma RecordedAside(fs: FatFs, l: seq<Sector>, m: seq<Sector>, d: nat, at: nat, ch: seq<nat>, bytes: seq<byte>)
    requires Recorded(fs, l, d, at, ch, bytes) && !fs.fsType.EXFAT? && fs.SameButMirror(l, m) && |m| == fs.disk.size
    ensures Recorded(fs, m, d, at, ch, bytes)
  {
    hide Laid, LdClust, Dword, Away, UsedOn, TableOn;
    LaidFacts(fs, l, ON_FAT, ch, bytes);
    LaidAside(fs, {}, l, m, ON_FAT, ch, bytes);
    RecordedIs(fs, m, d, at, ch, bytes);
  }

  /** Durability in a run over several files: file i is written by step a, synchronized by step k, and not operated on
      any more; the others are.  Then a new mount finds it as step k found it. */
  method RunSurvives(fs: FatFs, files: seq<Fil>, places: seq<Place>, info: nat, steps: seq<Step>, i: nat, reading: bool,
    writing: bool, ghost a: nat, ghost k: nat, ghost p: Scene, ghost last0: int)
    returns (res: FResult, sound: bool, fq: Fil?, ghost scenes: seq<Scene>, outs: seq<Reply>, ghost fulls: seq<bool>)
    requires fs.Valid() && AllUsable(fs, files) && KnownBut(files, last0) && Presents(fs, files, p)
    requires AllPlaced(fs, files, places, info) && Separate(places) && !fs.fsType.EXFAT?
    requires forall m | 0 <= m < |steps| :: steps[m].file < |files|
    requires forall m | 0 <= m < |steps| :: steps[m].op.WriteOp? ==> |steps[m].op.bytes| < 0x1_0000_0000
    requires a < k < |steps| && i < |files| && files[i].forWriting && steps[a].file == i && steps[a].op.WriteOp?
    requires steps[k].file == i && steps[k].op.SyncOp?
    requires forall m | a < m < k && steps[m].file == i :: !steps[m].op.SyncOp?
    requires forall m | k < m < |steps| :: steps[m].file != i
    modifies files, set j | 0 <= j < |files| :: files[j].obj
    modifies set j | 0 <= j < |files| :: files[j].buf
    modifies fs, fs.win, fs.disk
    ensures fs.Shape() && Interleaves(fs, Modes(files), places, info, scenes, steps, outs, fulls) && scenes[0] == p
    ensures (res.OK? && sound <==> fq != null) && (fq != null ==> |outs| == |steps|)
    ensures fq != null ==>
              fresh(fq) && fresh(fq.obj.fs) && fq.obj.fs.disk == fs.disk && SameLayout(fs, fq.obj.fs) && fq.Ready()
              && i < |scenes[k].files| && fq.Content() == scenes[k].files[i].bytes
    ensures |old(fs.disk.script)| == 0 ==> sound && !res.DiskErr?
    ensures res.IntErr? ==> WasBroken(p.vol)
  {
    hide AllUsable, KnownBut, AllPlaced, Separate, Recorded, Told, Parted, Turn, WasBroken, FatFs.Valid, FatFs.Shape,
      FatFs.Logical, FatFs.Table, Used, Fil.Core, Fil.Ready, Fil.Own, Fil.Clear, CountOk, HoldNow, Visible, SameLayout;
    ghost var last, ms, n := last0, Modes(files), |steps|;
    PlacedCount(fs, files, places, info);
    res, outs, scenes, fulls, last, sound := PerformTogether(fs, files, places, info, steps, p, last0);
    fq := null;
    if res.OK? && sound {
      SceneSizes(fs, ms, places, info, scenes, steps, outs, fulls);
      ChangedWhile(fs, ms, places, info, scenes, steps, outs, fulls, i, a, k);
      SyncedStays(fs, ms, places, info, scenes, steps, outs, fulls, i, k, n);
      res, fq := Reopen(fs, places[i], reading, writing, scenes[n].chains[i], scenes[k].files[i].bytes);
    }
  }
}
