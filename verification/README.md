# A verified model of the FatFs core and some of its neighbours

The repository stores its logs and configuration through FatFs R0.13 (`firmware/ext/ff.c`). This project models the
part of FatFs below the directory layer as state-changing Dafny code over a disk of sectors and proves what it is for:
that a file is a sequence of bytes. It also models the list sorts of `utlist.h`, the UART and trigger-log ring
buffers, the histogram index and the integer printer and parser.

The layers of FatFs, from the bottom up:

* `Disks`: the storage device. A script decides which of the next transfers fault, and what a faulting transfer leaves
  behind; with an empty script the device is infallible.
* `FatCodes`, `Volumes`: 12-, 16- and 28-bit FAT entries, and the one-sector write-back window with the mirrored second
  FAT through which they are read and written.
* `Bitmaps`: the exFAT allocation bitmap, searched and changed through the same window.
* `Chains`, `ObjChains`: cluster chains as mathematics. What it means for a FAT to be a set of disjoint chains; what
  it means for an exFAT object to have part of its chain kept as counts (`stat`, `n_cont`, `n_frag`) instead of links.
* `Objects`: `get_fat`, `create_chain`, `remove_chain`, `fill_first_frag` and `fill_last_frag` on one object.
  `Allocators`: several objects on one volume. `FreeCounts`: `f_getfree`. `LinkMaps`: the cluster link map.
* `Layout`, `Caches`, `Contents`, `Files`: where the bytes of a file lie, the file's private sector buffer laid over
  the disk, and `f_read`, `f_write`, `f_lseek`, `f_truncate` and the data part of `f_sync`.
* `Runs`: any sequence of these operations, in any open mode, against a file that is nothing but its bytes and a pointer.
* `Sharing`: what an operation on one file leaves to the other open files of the volume.
* `Durability`: `f_sync`, on FAT12/16/32 with the directory entry and FSInfo, then a new mount of the device and `f_open`.
* `Together`: operations on several open files in any order, `f_sync` with its directory entry among them on FAT12/16/32.
  `Lasting`: files synchronized in such a run, found again by a new mount after it.
* `Formats`: the arithmetic of `f_mkfs` for FAT volumes, and of `find_volume` when it mounts one.
* `LongNames`, `Patterns`: the long-name directory entries, and wildcard matching.
* `Findings`: runs of the model in which the code does not do what it is meant to do.

`ListSort`, `Rings`, `Histograms` and `Numbers` stand alone.

Conventions. A method is the C function of the same name, or a part of it that its comment names. Ghost parameters say
where in a chain the call is. `Looked`, `FatStep`, `MetaStep` and `OthersKept` are frames: which sectors may have changed
since a given state. `Since` is what one operation on a file keeps: besides the frame, that it took nothing but free
clusters, and that the window shows what it did or a sector of FAT or bitmap; `Kept` is what a whole run of them keeps,
and `Leaves` what a step does that may also write some given sectors, those of a directory entry and of FSInfo.
`Quiet` says that the device faults no more. `NoRoom` says that no cluster is free, or that the free count is 0.
Between operations, as long as its error flag is clear, a file is `Usable`. What is read from it is what it holds if its
buffer is `Clear`: if that shows a sector of the file, before its end, it shows what the file holds there. The ghost
field `tracked` notes that the buffer is known to show what is on the disk or to be newer, so that it stays `Clear`; a
file is `Ready` if it is `Usable` and tracked, as every file is that was just opened. Its buffer is its `Own` if it
shows a sector of the file or none.

## What was found

Properties that the code does not always have, with the exact condition under which it does:

* `find_volume` refuses some volumes that `f_mkfs` has just made: aligning the data area to the erase block may leave no
  cluster, and only the size before the alignment is checked. The volume mounts just when the volume reaches at least
  one cluster beyond the aligned data area (`Formats.FormattedMounts`; an instance is `Formats.FormatsToNothing`).
* A long name of 31 or 32 units can be stored, but not collected again: names come back just when they have at most
  `FF_MAX_LFN` - 2 units (`LongNames.Collectable`).
* The scan of `f_getfree` on FAT16 and FAT32 counts entries 0 and 1, so when it is not broken off it is right just when
  neither is zero (instances are in `FreeCounts.ReservedZeros`).
* When an error breaks the scan off, the count so far is stored as if it were the result: the number of clusters not in
  use before the entry reached, and of zeros among entries 0 and 1 that it had passed. What is stored can do no harm just
  when it is out of range, or the free clusters not looked at are as many as those zeros (`FreeCounts.GetFree`). If the
  first read faults, on a FAT16 or FAT32 volume, the free count is 0 from then on and counts as valid: until a cluster is
  freed none is given out, and `f_write` to a new file reports success with 0 bytes although the volume has room
  (`Findings.BrokenScan` is such a run on a volume with a free cluster, `Findings.WriteToNew` is its second half on any
  FAT12, FAT16 or FAT32 volume).
* `find_volume` compares neither the size of the system area in full width nor the end of the volume with anything: the
  product of FAT size and number of FATs, and the sums, wrap around at 32 bits, and the size of the device is not asked
  for. A FAT12, FAT16 or FAT32 volume that it accepts has the layout that all operations rely on just when from the
  sector where the FAT is taken to begin its FATs, root directory and clusters, one behind the other in full width, end
  on the device (`Formats.MountedShape`). `Formats.WrapsToNothing` is a boot record with two FATs of 2^31 + 1 sectors
  each, whose data area is taken to begin at sector 34.
* On FAT32 `sync_fs` writes FSInfo to the sector behind the boot sector, whatever is there. `find_volume` allows that
  with one reserved sector too, and then it is the first sector of the FAT. After a change of the free count the clusters
  up to number 120 are free, whoever has them (`Findings.InfoOverFat`, on every such volume). `f_sync` makes a file
  durable on FAT12, FAT16, and on FAT32 where that sector lies before the FAT and does not hold the directory entry
  (`Durability.SyncFat`).
* When the end mark of a chain on exFAT is the number after its last cluster, `remove_chain` takes the mark for one
  more cluster of the last run and leaves the bits of that run set. All clusters are freed just when the mark is
  another number; otherwise the last one stays in use (`Objects.RemoveChain`). Under the same condition the link map
  can be built (`LinkMaps.CreateLinkMap`), and `f_truncate` gives all clusters back (`Files.Fil.Truncate`). Such a
  mark is generated for a contiguous object that ends with the last cluster of the largest volume
  (`ObjChains.GeneratedMarkAfterLast`), and on a volume of any size a FAT may hold it for a chain that ends with the
  last cluster, as every number from `n_fatent` on is taken for an end (`ObjChains.StoredMarkAfterLast`).
* `f_lseek(CREATE_LINKMAP)` on an open file fails, other than by the device, just when the end mark is the number after
  the last cluster, or the file is one of size 0 that has clusters on an exFAT volume; the failure is an internal error
  and closes the file for further operations (`LinkMaps.CreateFor`).
* `f_truncate` keeps the sector that the buffer shows, though the cluster is given back, and `f_lseek` may take the
  cluster back without loading anything. `Findings.TwoReads` is a run with one free cluster and two files: the first
  reads its first byte, is cut off at the start, and takes the cluster back by a seek, after the second has written it
  and given it back. Then the same byte reads differently by itself, from the buffer, and with the whole sector, from the
  disk, with no write to the file between. The buffer of a file that was just opened is in agreement with the file all
  the time just when no seek makes the file longer, after it was cut off at a sector border and then something was done
  to another file or the file was synchronized, such that the sector in the buffer, clean, lies before the new end and
  is another on the disk (`Together.ClearJustWhile`). Until such a seek the file is a plain sequence of bytes, whatever
  is done to others (`Together.PlainUntil`). In any case a read inside one sector returns what the buffer shows, if it
  shows that sector (`Files.Fil.Read`).
* A second logging session does not set the reader's cursor back. With the cursor at t the first request returns the
  records from number t on, or as many empty records as there are slots from t to the end of the buffer if fewer than t
  were logged; that is what was logged just when t is 0, empty records apart (`Rings.FirstAnswer`). After a first session
  with ten records the first ten of the second one are not returned (`Rings.LosesRecords`).

## Model

| member | source | states |
|---|---|---|
| Disks.Disk.Read | firmware/ext/ff.c:904 | A read that succeeds delivers the sectors asked for; one that faults spoils no more than its target; each transfer uses up one outcome of the script |
| Disks.Disk.Write | firmware/ext/ff.c:876 | A write that succeeds stores the sectors, and one whose outcome is not a fault does succeed inside the disk; one that faults spoils no other sector |
| FatCodes.Table12 | firmware/ext/ff.c:996-1003 | A packed 12-bit entry is the value of two bytes at 3/2 of its number |
| FatCodes.Store12 | firmware/ext/ff.c:1070-1082 | Storing a 12-bit entry changes that entry to the value mod 4096 and no other, though neighbours share a byte |
| FatCodes.Store16 | firmware/ext/ff.c:1084-1089 | Storing a 16-bit entry changes that entry to the value mod 65536 and no other |
| FatCodes.Store32 | firmware/ext/ff.c:1091-1102 | Storing a 28- or 31-bit entry changes that entry and no other, and of its dword on FAT32 the lower 28 bits only |
| FatCodes.WordRoundTrip | firmware/ext/ff.c:547-592 | A 16-bit number stored at a place in the sector is loaded from there again |
| FatCodes.DwordRoundTrip | firmware/ext/ff.c:557-601 | A 32-bit number stored at a place in the sector is loaded from there again |
| Volumes.FatFs.SyncWindow | firmware/ext/ff.c:868-886 | Whatever faults, the logical disk stays as it is but for the second FAT; on success the window is clean; every clean FAT sector goes on to equal its mirror unless it is the write to the second FAT that faults |
| Volumes.FatFs.MoveWindow | firmware/ext/ff.c:891-912 | Whatever faults, the logical disk stays as it is but for the second FAT; on success the window shows the requested logical sector; the mirror stays right under the same condition |
| Volumes.FatFs.GetFat | firmware/ext/ff.c:979-1046 | Reading an entry through the window gives its value in the table of all entries, and changes none; the mirror stays right unless the window has a change of the FAT to write back and the transfer to the second FAT faults, on FAT12 too, where an entry may take two moves |
| Volumes.FatFs.PutFat | firmware/ext/ff.c:1057-1106 | Success means that the table changed in this entry only, to the value cut to its width; even a failure in the middle leaves the other entries alone, FAT12 entries across a sector border included; on FAT32 the upper four bits of every dword stay, also on failure, on exFAT the dword stored is the value; the mirror stays right unless a transfer to the second FAT faults, on FAT12 in one of the two moves of the window |
| Bitmaps.FindBitmap | firmware/ext/ff.c:1123-1156 | For one cluster, from any start: the answer is the first free cluster around the end of the bitmap, and 0 just when none is free |
| Bitmaps.ChangeBitmap | firmware/ext/ff.c:1164-1193 | On success exactly the bits of the run changed, none outside; a bit that already has the value is an error |
| Bitmaps.FlipBit | firmware/ext/ff.c:1185 | Flipping a bit of a byte changes that bit and no other |
| Chains.ChainIsAcyclic | firmware/ext/ff.c:1015-1033 | A chain of links that comes to an end visits no cluster twice |
| Chains.StretchKeepsChains | firmware/ext/ff.c:1422-1425 | A FAT that is a set of disjoint chains stays one when a free cluster is appended to a chain; the other chains are the same |
| Chains.StartKeepsChains | firmware/ext/ff.c:1422-1425 | The same for a new chain of one cluster |
| Chains.CutKeepsChains | firmware/ext/ff.c:1269-1308 | The same for a chain cut after k clusters, or removed |
| Chains.CutChain | firmware/ext/ff.c:1269-1308 | Following and freeing from cluster k ends, and frees exactly the rest of the chain |
| Chains.RemoveFreesChain | firmware/ext/ff.c:1276-1308 | Following and freeing from the start of a chain frees exactly its clusters |
| Chains.RemoveSweeps | firmware/ext/ff.c:1276-1308 | On every table, cyclic and merging ones included, following and freeing frees exactly the clusters that a walk along the links reaches, and gives up just when one of them has an entry of value 1 |
| Chains.TrailsOn | firmware/ext/ff.c:1276-1308 | Every single turn stays among those clusters, whether or not the loop comes to its end |
| Chains.FreeCountSet | firmware/ext/ff.c:1285-1288 | How the number of zero entries changes with one entry: the measure by which every removal ends |
| ObjChains.OnFatIsChain | firmware/ext/ff.c:1225-1240 | With nothing deferred, what status and FAT describe is an ordinary chain, and conversely |
| ObjChains.ViewFollows | firmware/ext/ff.c:1015-1037 | What get_fat generates or reads for a cluster of an exFAT object is the next cluster of its chain, or an end mark at its end |
| ObjChains.StoredMarkAfterLast | firmware/ext/ff.c:1028-1034 | A well described chain on a small volume whose end mark is the number after its last cluster |
| ObjChains.GeneratedMarkAfterLast | firmware/ext/ff.c:1020-1023 | The same for a contiguous object at the end of the largest volume |
| ObjChains.AppendHolds | firmware/ext/ff.c:1376-1392 | After a stretch, whichever of the states contiguous, fragmented and on the FAT it starts from, status and FAT describe the old clusters with the new one behind them |
| ObjChains.AppendElsewhere | firmware/ext/ff.c:1376-1392 | A stretch on exFAT changes no link of a cluster of another chain |
| ObjChains.FillLastStep | firmware/ext/ff.c:1225-1240 | Every single step of fill_last_frag leaves status and FAT in agreement about the chain |
| ObjChains.FillLastAt | firmware/ext/ff.c:1225-1240 | Which entries fill_last_frag changes, and to what |
| ObjChains.FillFirstHolds | firmware/ext/ff.c:1201-1217 | Every step of fill_first_frag leaves the chain described, and the last one as an object with no first fragment |
| ObjChains.DeferredIsEager | firmware/ext/ff.c:1200-1240 | After any run of stretches, fill_first_frag and then fill_last_frag leave a contiguous object or a FAT chain of the clusters in the order in which they were taken |
| ObjChains.FlushedIsChain | firmware/ext/ff.c:3795-3799 | The two fills of f_sync leave a contiguous object or an ordinary FAT chain, from any status |
| ObjChains.CutHolds | firmware/ext/ff.c:1310-1334 | What remains of a chain after a cut is described by the status as it is, or is contiguous again |
| ObjChains.ViewBeyondCut | firmware/ext/ff.c:1270-1277 | Marking the new end does not change what get_fat says about the clusters behind it |
| Objects.FfObj.Open | firmware/ext/ff.c:3486-3499 | The object that start, size and flags of a directory entry and the volume together describe is well described |
| Objects.FfObj.GetFat | firmware/ext/ff.c:979-1046 | get_fat gives what status and FAT say about the cluster, and changes neither nor the use of any cluster |
| Objects.FfObj.GetFatFollows | firmware/ext/ff.c:1015-1037 | For a well described object that is the next cluster of its chain |
| Objects.SearchFat | firmware/ext/ff.c:1408-1421 | The wrap-around scan ends; its answer is the first free cluster from the suggested start on, and 0 just when none is free |
| Objects.FillLastFrag | firmware/ext/ff.c:1225-1240 | The links of the last fragment are written; even if a write fails, status and FAT still describe the chain |
| Objects.FillFirstFrag | firmware/ext/ff.c:1201-1217 | The links of the first fragment are written and the status cleared; after a failure the first k links are |
| Objects.NoteLink | firmware/ext/ff.c:1376-1392 | Status and FAT change to what deferred chain writing says for the new link |
| Objects.LinkNew | firmware/ext/ff.c:1422-1425 | The new cluster is marked as end and linked from the previous one |
| Objects.GrowExfat | firmware/ext/ff.c:1370-1392 | On exFAT a cluster that was free, the first one from the suggested start on, is now in use and is the new end of the chain; otherwise nothing changed, and no cluster is free or the device failed |
| Objects.GrowFat | firmware/ext/ff.c:1395-1426 | On FAT12/16/32 a free cluster is taken: the one after the last of the chain if that is free, otherwise the first from the last one allocated, or from there, on; with the table of links that results |
| Objects.CreateChain | firmware/ext/ff.c:1346-1437 | Follows the chain, or stretches it at the end by exactly one cluster that was free, or starts it, and which cluster that is; 0 only if no cluster is free or the free count is 0; a valid free count goes down by one with a new cluster and stays otherwise, and the last allocated cluster and the mark for FSInfo change with a new cluster only |
| Objects.RemoveFat | firmware/ext/ff.c:1276-1308 | On every FAT, cyclic and merging ones included, the loop of remove_chain ends, having freed exactly the clusters that following the links reaches from the first one; it gives up just when one of those has an entry of value 1; even if the device fails, no entry of another cluster changes; a valid free count stays right, goes up by the number of clusters freed, as far as the maximum, and marks FSInfo just if it changes |
| Objects.FreedCount | firmware/ext/ff.c:1285-1288 | Freeing the clusters of a chain raises the number of free clusters by its length |
| Objects.RemoveExfat | firmware/ext/ff.c:1276-1308 | On exFAT whole runs of bits are cleared as the chain is followed; all of the chain is freed just when its end mark is not the number after its last cluster |
| Objects.RefreshStatus | firmware/ext/ff.c:1310-1334 | After a cut the status is right for what remains, and contiguous just where that lies in one piece |
| Objects.FollowsInOrder | firmware/ext/ff.c:1317-1327 | Following the links tells whether the clusters are consecutive |
| Objects.RemoveChain | firmware/ext/ff.c:1251-1337 | The chain ends after k clusters and is well described; exactly the rest of it was freed, on exFAT just when the end mark is not the number after the last cluster, which otherwise stays in use; a free count below the maximum goes up by the number of clusters behind k, as far as the maximum, and FSInfo is due just if it was or the count changed; where all were freed a valid count stays right |
| Allocators.StretchOne | firmware/ext/ff.c:1346-1437 | Invariant of every run: the FAT is the disjoint acyclic chains of the objects, one each, and the free count is right; a stretch keeps it, changes one chain by one cluster, and meets no broken entry |
| Allocators.CutOne | firmware/ext/ff.c:1251-1337 | A removal keeps the same invariant and changes one chain only |
| Allocators.Lengthens | firmware/ext/ff.c:1422-1425 | The new link table is the same family of chains with one of them one cluster longer |
| Allocators.Cuts | firmware/ext/ff.c:1269-1308 | The new link table is the same family of chains with one of them cut |
| Allocators.StretchAny | firmware/ext/ff.c:1346-1437 | On every type of volume: all objects stay well described and no cluster belongs to two of them, while one of them gets one more cluster |
| Allocators.CutAny | firmware/ext/ff.c:1251-1337 | The same while one of them gives up its last clusters |
| Allocators.OtherStays | firmware/ext/ff.c:1370-1426 | Why: the status of another object and the changed FAT still describe its chain, and its clusters are still in use |
| Layout.SectorOfIsProduct | firmware/ext/ff.c:961-969 | Clusters laid back to back start where the product of size and number says |
| Layout.Clst2Sect | firmware/ext/ff.c:961-969 | The first sector of a valid cluster, 0 for any other 32-bit number |
| Layout.SectorsDiffer | firmware/ext/ff.c:961-969 | The sectors of a chain are all different |
| Layout.SectorsOfClusters | firmware/ext/ff.c:961-969 | A sector belongs to a chain just when it lies in one of its clusters |
| Layout.ClusterBytes | firmware/ext/ff.c:4126-4129 | Dividing a byte position by the cluster size in bytes and by sectors first agree |
| Caches.HoldsThroughMeta | firmware/ext/ff.c:3588 | Moving the window and changing FAT and bitmap do not change what the file holds |
| Caches.HoldFlush | firmware/ext/ff.c:3705-3708 | Writing the dirty buffer back does not change what the file holds |
| Caches.HoldFailed | firmware/ext/ff.c:3787-3790 | Nor does a write-back that fails, as long as the buffer counts as dirty |
| Caches.HoldPut | firmware/ext/ff.c:3741-3757 | A clean buffer may take the place of any sector of the file without loading it: then exactly this sector has the new content |
| Caches.HoldDirect | firmware/ext/ff.c:3714-3733 | Sectors written past the buffer are the new content, if the buffer is refilled when its sector is among them |
| Caches.HoldCut | firmware/ext/ff.c:4525-4547 | After a cut the file holds its first sectors, though a dirty buffer is written to a sector that was given up |
| Caches.HoldsGrown | firmware/ext/ff.c:3681-3700 | A cluster appended puts its sectors behind the others |
| Caches.HoldsRow | firmware/ext/ff.c:3599-3616 | Sectors read past the buffer are the content but for the one in a dirty buffer |
| Contents.PutBytes | firmware/ext/ff.c:3749-3757 | A partial sector written at the pointer overwrites exactly those bytes of the file |
| Contents.DirectBytes | firmware/ext/ff.c:3714-3733 | Whole sectors written at the pointer overwrite exactly those bytes of the file |
| Contents.OverwriteTwice | firmware/ext/ff.c:3676-3677 | Writing two pieces in a row is writing them as one |
| Files.WriteData | firmware/ext/ff.c:3718 | Writing data sectors that the window does not show changes the logical disk there and neither FAT nor bitmap |
| Files.SinceTwice | firmware/ext/ff.c:3652-3764 | What the operations so far leave to others, every sector outside FATs and bitmap that is in no cluster of the file's and in no free one, and what the next one does adds up over a run |
| Files.OtherFileKept | firmware/ext/ff.c:3652-3764 | Whatever operations were done on one file, another one keeps its clusters, its links and its data |
| Files.Fil.constructor | firmware/ext/ff.c:3506-3508 | A file just opened, one of size 0 with clusters included, contiguous or not, holds what its sectors on the disk hold, and has nothing to write |
| Files.Fil.Flush | firmware/ext/ff.c:3705-3708 | The buffer is clean afterwards, or the device failed; the content stays either way |
| Files.Fil.Load | firmware/ext/ff.c:3619-3629 | The buffer shows the sector asked for, with its current content |
| Files.Fil.FollowRead | firmware/ext/ff.c:3578-3594 | At a cluster border the current cluster becomes that of the pointer |
| Files.Fil.DirectRead | firmware/ext/ff.c:3599-3616 | The bytes delivered are those of the file, including a sector that is newer in the buffer |
| Files.Fil.ReadStep | firmware/ext/ff.c:3574-3640 | One turn of the loop delivers the next bytes, whole sectors from the disk and parts of one from the buffer, and moves on by at least one |
| Files.Fil.Read | firmware/ext/ff.c:3552-3642 | Reads as many bytes as asked for and there are, those at the pointer if the buffer is in agreement with the file; in any case a read inside one sector gives what the buffer shows if it has that sector, and what the file holds otherwise, and one of a whole sector what the file holds; the file stays as it is, and usable if it was not opened for reading; without device faults it succeeds |
| Files.Fil.Take | firmware/ext/ff.c:3680-3695 | The file is as it was and its next cluster is known, or it has a new cluster behind its chain that was free; 0 only if there is no room; with a free count of 0 the chain does not grow |
| Files.Fil.Stretch | firmware/ext/ff.c:3680-3700 | The next cluster, or a new one behind the chain with the content kept; 0 only if there is no room |
| Files.Fil.FollowWrite | firmware/ext/ff.c:3680-3701 | At a cluster border the current cluster becomes that of the pointer, with a new cluster, and no second one, if need be; there is none for lack of room only at the end of the file |
| Files.Fil.DirectWrite | firmware/ext/ff.c:3714-3733 | Whole sectors become content of the file; the buffer is never older than they are |
| Files.Fil.Put | firmware/ext/ff.c:3749-3757 | The bytes put into the buffer overwrite exactly those bytes of the file |
| Files.Fil.WriteBorder | firmware/ext/ff.c:3679-3746 | At a sector border: the cluster is found or made, whole sectors are written, or the sector is brought into the buffer |
| Files.Fil.WriteStep | firmware/ext/ff.c:3678-3758 | One turn of the loop overwrites the next bytes, or finds that there is no cluster for them, and then is at the end of the file |
| Files.Fil.Write | firmware/ext/ff.c:3652-3764 | Overwrites exactly the bw bytes at the pointer, longer file included; bw is less than asked for only if the volume is full and the pointer at the end of the file, or the file would reach 4 GiB on FAT: an overwrite inside the file completes on a full volume too; no cluster is taken beyond that of the last byte; with a free count of 0 the file takes no cluster; a call that is denied changes nothing |
| Files.Fil.Settle | firmware/ext/ff.c:4056-4061 | Writing out the last fragment keeps the content and leaves no deferred links; a failure leaves the file usable |
| Files.Fil.SeekStart | firmware/ext/ff.c:4126-4143 | The walk starts at the current cluster or at the first, whichever the target allows |
| Files.Fil.SeekStep | firmware/ext/ff.c:4145-4165 | One step along the chain, stretching it when writing, keeps the content and the size right for contiguous objects |
| Files.Fil.SeekOn | firmware/ext/ff.c:4144-4172 | The walk ends in the cluster of the target, or at the end of the file where the chain can grow no more |
| Files.Fil.Seek | firmware/ext/ff.c:4041-4193 | The pointer ends at the target clipped to what mode and volume allow; short of it only on a full volume and not before the old end of the file, so a seek inside the file always arrives; all bytes of the file stay, and it grows no further than the pointer, and by no cluster beyond it; a seek to a sector border leaves the buffer as it is, and a seek that does not lengthen the file leaves it in agreement |
| Files.Fil.CutChain | firmware/ext/ff.c:4526-4537 | The clusters behind that of the pointer are given back, on exFAT just when the end mark is not the number after the last cluster; the free count goes up by their number and stays right then |
| Files.Fil.FlushCut | firmware/ext/ff.c:4538-4547 | The bytes before the pointer stay, though the dirty buffer may belong to a cluster just freed |
| Files.Fil.Truncate | firmware/ext/ff.c:4512-4553 | The file is its bytes before the pointer, its chain the clusters up to there, and exactly the others are free, on exFAT just when the end mark was not the number after the last cluster; the free count goes up by their number, and stays right then; on exFAT what remains is contiguous just where it lies in one piece; a clean buffer stays as it is; a call that is denied changes nothing; without device faults this succeeds |
| Files.Fil.LeanIs | firmware/ext/ff.c:3680-3701 | A file has just the clusters that its bytes need when its sectors reach less than a cluster beyond its last byte |
| Files.Fil.SettleFirst | firmware/ext/ff.c:3796 | Writing out the first fragment keeps the content; a failure leaves the file usable |
| Files.Fil.SyncData | firmware/ext/ff.c:3785-3799 | Afterwards the buffer is clean and the object is contiguous or an ordinary FAT chain; the content stays, even on failure |
| Runs.Perform | firmware/ext/ff.c:3552-4553 | For files opened for reading, for writing or both: each operation that succeeds does to the plain file what it should, if the buffer is in agreement with the file or is not looked at, a seek without the right to write ending inside the file, a short write or seek on a full volume at its end; in any case pointer and size move as they should; one that the mode does not allow is denied and does nothing; a file with just the clusters that its bytes need goes on to have just these; other files' sectors stay as they are; of f_sync this is the data part |
| Runs.PerformAll | firmware/ext/ff.c:3552-4553 | Any sequence of operations in any open mode, denied ones included, up to the first that fails, is explained by a run of the plain file, and traced by the states of the volume: an operation is cut short only where no cluster was free or the free count was 0; what belongs to other files stays, and on FAT12/16/32 a valid free count stays right; if all succeed a file with just the clusters that its bytes need still has just these; without device faults only a broken FAT entry makes an operation fail |
| Runs.CountStays | firmware/ext/ff.c:1251-1437 | Along any run on FAT12/16/32 a free count that is right and in range stays so |
| Runs.ReadOnlyStays | firmware/ext/ff.c:4117-4122 | No run changes a file that was not opened for writing, and each of its seeks arrives where the target clipped to the size says |
| Runs.FullTookAll | firmware/ext/ff.c:3680-3700 | Where a run met a full volume, every cluster that was free before that operation belongs to the file after it |
| Runs.ByteStays | firmware/ext/ff.c:3652-3764 | Along any run a byte stays until an operation overwrites it or cuts it off |
| Runs.ReadReturnsLastWritten | firmware/ext/ff.c:3552-3764 | Along any run a read returns for every byte what was last written there |
| Sharing.HoldingStays | firmware/ext/ff.c:3652-3764 | After anything that was done to another file a file still holds what it held, in clusters that are still its own; its buffer shows one of its own sectors, or is left out of account |
| Sharing.StaysOpen | firmware/ext/ff.c:3552-4553 | An open file, with a dirty buffer and deferred links or not, stays open with its content and its pointer whatever succeeds on another one, as long as a buffer that is not its own is not relied on |
| Together.Take | firmware/ext/ff.c:3552-4553 | One operation, on FAT12/16/32 a whole f_sync with directory entry and FSInfo among them: what it does to its own file, to its buffer and to the rest of the volume; what it stores of a changed file in the directory, and that the other entries stay |
| Together.OneTurn | firmware/ext/ff.c:3552-4553 | The same among all open files: the others keep content, pointer, clusters and buffer, all stay usable, directory entries and FSInfo stay apart from all clusters |
| Together.PerformTogether | firmware/ext/ff.c:3552-4553 | Operations on several open files in any order, up to the first that fails: the scenes of all files, buffers and the volume that they go through, each turn as above; without device faults only a broken FAT entry, broken from the start, makes one fail |
| Together.ClearJust | firmware/ext/ff.c:3617-3635 | A buffer is in agreement with its file just when it is dirty, or shows no sector before the end of the file, or shows it as the disk has it |
| Together.EachAlone | firmware/ext/ff.c:3552-4553 | A file whose buffer is in agreement with it whenever a read or write looks at it goes through a run of its own, of just the operations on it, as if the others were not there |
| Together.SureWhile | firmware/ext/ff.c:4525-4547 | A buffer goes on to show what is on the disk, or is newer, until after a cut at a sector border something is done to another file or the file is synchronized |
| Together.ClearJustWhile | firmware/ext/ff.c:4041-4193 | The buffer of a file that was just opened stays in agreement with it just when no seek after that makes the file longer and brings the sector in the buffer back below its end while the disk holds something else there |
| Together.PlainUntil | firmware/ext/ff.c:3552-4553 | Until such a seek the file goes through a run of its own, truncations at sector borders included |
| Durability.LaidNow | firmware/ext/ff.c:3785-3799 | A file with a clean buffer and no deferred links is all on the logical disk: links or status, use of clusters, and every byte |
| Durability.StillLaid | firmware/ext/ff.c:3161-3211 | That depends on nothing but the sectors and the layout, so it holds for another mount |
| Durability.EnteredSays | firmware/ext/ff.c:3828-3833 | From a directory entry stored the start cluster and the size are loaded again at bytes 20, 26 and 28, the archive bit of byte 11 is set and its other bits stay, the time is at byte 22, the last access date is 0, and no other byte of the sector changes |
| Durability.LaidAside | firmware/ext/ff.c:3826-3835 | Storing the entry, and FSInfo, disturbs neither FAT nor data of the file |
| Durability.SyncFs | firmware/ext/ff.c:924-950 | sync_fs on success leaves the logical disk, but for the mirror, on the device, and in the sector of FSInfo, if it is to be written, the three signatures, the free count at byte 488, the last allocated cluster at byte 492, and zeros; FSInfo is no longer due then; a fault in that transfer goes unnoticed |
| Durability.StoreEntry | firmware/ext/ff.c:3826-3836 | On success the entry is on the device, with all its fields in their places, and nothing else changed but the mirror and FSInfo, which holds the free count and the last allocated cluster if it was due |
| Durability.Record | firmware/ext/ff.c:3826-3836 | Of a file whose data is on the volume the device then holds the entry too, no other entry of the sector changed, and the open file goes on as it was |
| Durability.SyncFat | firmware/ext/ff.c:3773-3843 | After f_sync the device alone, without window and buffer, holds the file and its directory entry, on FAT32 if the sector of FSInfo lies before the FAT and is another; what belongs to others stays, and so do the other entries |
| Durability.OpenRecorded | firmware/ext/ff.c:3495-3508 | f_open from that entry gives a file with these bytes |
| Durability.SyncedSurvives | firmware/ext/ff.c:3773-3843 | Durability on FAT12/16/32: what was in the file when f_sync returned is read back after a new mount of the device |
| Durability.SyncExfat | firmware/ext/ff.c:3785-3818 | The same as SyncFat on exFAT, with start, size and flags as f_sync passes them on |
| Durability.SyncedSurvivesExfat | firmware/ext/ff.c:3785-3818 | Durability on exFAT, for contiguous and for linked files |
| Lasting.SaysStill | firmware/ext/ff.c:3552-4553 | No operation on any file changes the directory entry of a file but its own f_sync |
| Lasting.RecordedWhile | firmware/ext/ff.c:3552-4553 | In a run over several files, from its f_sync on a file is recorded on the disk with what is in it whenever its buffer is clean and start and size are those of then |
| Lasting.SyncedStays | firmware/ext/ff.c:3552-4553 | If nothing was done to it since, with what was in it then, whatever was done to others |
| Lasting.RunSurvives | firmware/ext/ff.c:3552-4553 | Durability in runs over several files on FAT12/16/32: a file that was written, synchronized and then left alone is found as it was by a new mount after the run, once the window is written back |
| FreeCounts.ZerosAndUnused | firmware/ext/ff.c:4476-4493 | Zero entries counted from 0 exceed the free clusters by the zeros in entries 0 and 1 |
| FreeCounts.ReservedZeros | firmware/ext/ff.c:4476-4493 | Two FATs with one free cluster, and a zero in entry 0 or 1, where the scan counts two |
| FreeCounts.UnusedParts | firmware/ext/ff.c:4446-4453 | The clusters not in use are those before an entry and those from it on |
| FreeCounts.LowAndUnused | firmware/ext/ff.c:4476-4493 | The zeros before any entry are the clusters not in use there and the zeros among entries 0 and 1 |
| FreeCounts.WholeScan | firmware/ext/ff.c:4476-4493 | A scan that reaches the end is right just when entries 0 and 1 are not zero (FAT12 and exFAT: always) |
| FreeCounts.ScanFat12 | firmware/ext/ff.c:4446-4453 | The entry by entry scan counts the free clusters, up to the entry at which it was broken off |
| FreeCounts.ScanFat | firmware/ext/ff.c:4476-4493 | The sector by sector scan counts the zero entries, up to the entry at which it was broken off; none if the first read faults |
| FreeCounts.ScanBitmap | firmware/ext/ff.c:4456-4473 | The scan of the bitmap counts the clusters not in use, up to that at which it was broken off |
| FreeCounts.GetFree | firmware/ext/ff.c:4423-4503 | What is stored is the count of the clusters before the entry reached, with zeros in entries 0 and 1; it is the number of free clusters just when those zeros are as many as the free clusters not reached, and the free count is sound just then or when it is out of range; in a scan that ends this is when entries 0 and 1 are not zero (FAT12 and exFAT: always); 0 if the first read faults |
| Findings.WriteToNew | firmware/ext/ff.c:3680-3697 | With a free count of 0 a write to a new file succeeds and writes nothing, on any FAT volume |
| Findings.BrokenScan | firmware/ext/ff.c:4476-4498 | A run on a volume with a free cluster in which a scan is broken off and the next write writes nothing |
| Findings.InfoOverFat | firmware/ext/ff.c:936-946 | With one reserved sector sync_fs writes FSInfo over the FAT and so frees the clusters up to number 120 |
| Findings.TwoReads | firmware/ext/ff.c:3598-3635 | A run over two files in which a byte reads differently, by itself and with its sector, with no write to its file between |
| LinkMaps.ClmtClust | firmware/ext/ff.c:1450-1468 | For a map of the chain: the cluster that following get_fat that many times gives, 0 beyond the end |
| LinkMaps.SettledIsFollowed | firmware/ext/ff.c:4056-4064 | Once the last fragment is written, get_fat can follow the whole of an open file, contiguous or not, just when it is not one of size 0 with clusters on exFAT, of which it follows nothing |
| LinkMaps.FollowRun | firmware/ext/ff.c:4072-4078 | The longest run of consecutive clusters from here, and what comes after it |
| LinkMaps.PutRun | firmware/ext/ff.c:4079-4081 | One more run in the table, if there is room, and nothing beyond it |
| LinkMaps.MapRun | firmware/ext/ff.c:4070-4082 | One run followed and stored, or an internal error, which there is just when no map can be made |
| LinkMaps.CreateLinkMap | firmware/ext/ff.c:4065-4089 | For an object that can be followed, or one of size 0 with clusters: the table becomes a map of the chain in the room given, or the room needed is reported, just when the end mark is not the number after the last cluster and the object is not such a one; items beyond the room, the FAT and the use of clusters stay as they are |
| LinkMaps.CreateFor | firmware/ext/ff.c:4056-4097 | The same for any open file: content, pointer and what belongs to others stay, and without device faults it fails just under the condition above, with the error kept |
| LinkMaps.FragmentMore | firmware/ext/ff.c:4070-4084 | The items needed grow by two with each run that does not continue the one before |
| Formats.TryFat | firmware/ext/ff.c:5593-5645 | One try at FAT12 or FAT16: which layout comes of it, whether it is another size or FAT32 next, or the end, told by the sizes in full width; a layout is good, in spite of 32-bit wrap-around in the code; otherwise fewer tries are left |
| Formats.TryFat32 | firmware/ext/ff.c:5583-5628 | One try at FAT32: accepted just when the clusters are in number between the bounds and more than FAT16 can have fit behind the padded system area, with a FAT of the least size; the half size is tried just when with any size allowed there are too few |
| Formats.GoodFat16 | firmware/ext/ff.c:5598-5622 | Sizes that wrapped never lead to an accepted FAT16 layout; accepted ones have a FAT with room for all entries |
| Formats.GoodFat12 | firmware/ext/ff.c:5598-5622 | The same for FAT12 |
| Formats.GoodFat32 | firmware/ext/ff.c:5588-5622 | The same for FAT32, and the sizes never wrap |
| Formats.Padding | firmware/ext/ff.c:5613 | The padding is less than an erase block and makes the data area start at one |
| Formats.Emptiness | firmware/ext/ff.c:5613-5628 | A layout has no cluster just when it is FAT12 and the volume ends before the first cluster would, alignment included |
| Formats.PlanVolume | firmware/ext/ff.c:5579-5649 | The retry loop ends for all volume, cluster and erase-block sizes, and gives a layout just when the sizes say so: with a cluster size requested when some allowed type fits with it; with none, on FAT32 from 64 MiB on always, else by the first size for the volume, its double or the switch to FAT32; the layout is the one with that size, the least FAT and the padding, and is good; it has no cluster just when it is FAT12 and the volume is smaller than system area, alignment and one cluster |
| Formats.Auto32 | firmware/ext/ff.c:5583-5628 | From 64 MiB on the size chosen for FAT32 does, or is too large and then its half does |
| Formats.FormattedMounts | firmware/ext/ff.c:3161-3211 | A volume laid out so is mounted with the same sub-type, cluster count and places, its regions apart and inside the volume, aligned, its FAT large enough; it is mounted just when a cluster fits behind the aligned data area |
| Formats.FormatsToNothing | firmware/ext/ff.c:5621-5649 | A volume that is made, has no cluster, and is refused |
| Formats.MountedShape | firmware/ext/ff.c:3161-3211 | A FAT volume that is mounted, with one FAT or two, from any sector on, has the shape that all operations above rely on just when, from where its FAT is taken to begin, FATs, root directory and clusters in full width end on the device |
| Formats.MountedJust | firmware/ext/ff.c:3161-3211 | find_volume accepts just the records that describe a volume with n clusters, with one FAT or two, which is declared without a division, and finds n, sub-type and places |
| Formats.WrapsToNothing | firmware/ext/ff.c:3165-3184 | A boot record that is accepted though its two FATs reach 2^32 sectors beyond its data area |
| Formats.FormattedShape | firmware/ext/ff.c:3161-3211 | What was formatted and mounted has that shape |
| LongNames.PutLfn | firmware/ext/ff.c:1786-1811 | The entry says exactly what part number ord of the name is: its units, end, padding, number and mark |
| LongNames.PickLfn | firmware/ext/ff.c:1748-1777 | Accepts a part just when it is padded properly and fits, and then stores exactly its units and, from the last part, the end |
| LongNames.KeptOfName | firmware/ext/ff.c:1802-1810 | How many units each part of a name carries; the last part and no other is marked |
| LongNames.Collectable | firmware/ext/ff.c:1748-1777 | All parts of a name are accepted just when it has at most FF_MAX_LFN - 2 units |
| LongNames.NameCollected | firmware/ext/ff.c:2381-2393 | Collecting all parts of a name, in any order, gives the name and its end |
| Patterns.Wildcards | firmware/ext/ff.c:2625-2631 | A run of wildcards means as many characters as question marks, or at least so many if it has a star |
| Patterns.NeedsLength | firmware/ext/ff.c:2622-2639 | No text shorter than the plain start of a pattern matches: why the search may stop at the end of the name |
| Patterns.Analyze | firmware/ext/ff.c:2626-2629 | Number of question marks and presence of a star in the run of wildcards |
| Patterns.Attempt | firmware/ext/ff.c:2623-2637 | True just when pattern and name match from here; if the end of the name was met, no later part matches either |
| Patterns.PatternMatching | firmware/ext/ff.c:2605-2642 | Ends, and is true just when the pattern, by its declarative meaning, matches behind the given number of skipped characters, or behind at least so many |
| ListSort.MergeSorts | firmware/ext_algo/utlist.h:196-217 | Merging two sorted runs, the first of lower ranks, gives a sorted run in which equal elements keep their order |
| ListSort.PassDoubles | firmware/ext_algo/utlist.h:182-221 | A pass makes the sorted runs twice as long, for every total preorder |
| ListSort.MergeRuns | firmware/ext_algo/utlist.h:196-217 | Rewiring the nodes of two runs in place appends their merge to what was built |
| ListSort.OnePass | firmware/ext_algo/utlist.h:182-221 | One pass leaves the doubly linked list that merging pairs of runs gives; one merge or none means that all is one run |
| ListSort.SortedIsStable | firmware/ext_algo/utlist.h:168-228 | Sorted by order and then by original place is what a stable sort is |
| ListSort.Sort | firmware/ext_algo/utlist.h:168-228 | Ends with the same nodes in order, equal ones as they were, every prev pointer right, the head's leading to the tail, the tail's next null |
| Rings.Overwrites | firmware/console/binary/tooth_logger.cpp:50-65 | While fewer items than slots are unread, a new item overwrites one that was read |
| Rings.AnswerInStep | firmware/console/binary/tunerstudio.cpp:551-574 | From a cursor in step, the slots up to the write position or the end of the buffer hold the next unread records, and some of them if there are any |
| Rings.FirstAnswer | firmware/console/binary/tunerstudio.cpp:551-574 | What the first request of a session returns for every position of the cursor, and when that is what was logged |
| Rings.LosesRecords | firmware/console/binary/tooth_logger.cpp:117-135 | Two sessions of which the second one loses records |
| Rings.UartDma.constructor | firmware/console/connector_uart_dma.cpp:62-74 | The invariant holds at the start |
| Rings.UartDma.Receive | firmware/console/connector_uart_dma.cpp:71-73 | Invariant of every run while fewer than 32 bytes are unread: the bytes passed on are a prefix of those received |
| Rings.UartDma.CopyDataFromDma | firmware/console/connector_uart_dma.cpp:22-40 | The next bytes are passed on in order, as many as the queue has room for, even if it fills on the way |
| Rings.ToothLogger.Enable | firmware/console/binary/tooth_logger.cpp:117-135 | A session starts with an empty buffer; the reader is in step with it if the cursor stands at 0 |
| Rings.ToothLogger.SetNextEntry | firmware/console/binary/tooth_logger.cpp:48-66 | Invariant of every session: the buffer holds the newest 500 records; and while fewer than 500 are unread by a reader in step, the records returned are a prefix of those logged |
| Rings.ToothLogger.LogTooth | firmware/console/binary/tooth_logger.cpp:68-107 | One record with the levels after the event, none if logging is off; the invariants stay |
| Rings.ToothLogger.LogTopDeadCenter | firmware/console/binary/tooth_logger.cpp:109-115 | One record marked as top dead center, none if logging is off; the invariants stay |
| Rings.ToothLogger.GetComposite | firmware/console/binary/tunerstudio.cpp:547-576 | For every position of the cursor, what is returned and where it stands then; a reader in step gets the next unread records, each once and in order, none only if none is unread; a request that starts a session brings the reader into step |
| Histograms.FillBounds | firmware/util/histogram.c:43-56 | The bounds rise strictly from 0 until they reach the largest number, whatever part is added |
| Histograms.FillSmall | firmware/util/histogram.c:57-59 | The table of small values has the index a scan would find |
| Histograms.GetIndex | firmware/util/histogram.c:65-83 | The index a scan would find, for every value from 0 on |
| Numbers.Ltoa | firmware/util/efilib.cpp:136-169 | The digits of the number, in ten characters at most |
| Numbers.Itoa10 | firmware/util/efilib.cpp:174-194 | The text of every 32-bit number above the smallest |
| Numbers.Atoi | firmware/util/efilib.cpp:111-132 | The number a text stands for, or the error values |
| Numbers.RoundTrip | firmware/util/efilib.cpp:111-194 | Parsing the text of a number gives the number |

## Left out

- Files.Fil.Seek: bytes between the old end of the file and the pointer are not specified, as the code writes nothing there.
- Files.Fil.Read: after a transfer that faulted, the error flag is set, and neither the content of the file nor br is described; the same goes for Write, Seek and Truncate.
- Files.Fil.Write: the cluster size is any positive number of sectors; the masks of the code are written as remainders, and that it is a power of two is not used.
- Bitmaps.FindBitmap: one cluster only; the search for several does not reset its counter at the wrap-around, and only f_expand asks for it.
- Objects.CreateChain: after a device fault the state of the object is not described, only which sectors may have changed.
- Allocators.StretchAny: that every cluster in use belongs to one of the objects is stated for FAT12/16/32 only (`Allocators.StretchOne`).
- Files.Fil.SyncData: for a file whose last operation did not abort; f_sync accepts others too, and what their buffer and deferred links then hold is not described.
- Volumes.FatFs.constructor: operations are for volumes of the shape given in `Shape`. Which FAT volumes have it is `Formats.MountedShape`; on exFAT find_volume checks neither that the FAT is large enough and before the data area, nor that there is a cluster, nor, but for a product cut to 32 bits, that the clusters fit, and no theorem says which exFAT volumes have it.
- Formats.PlanVolume: the exFAT branch of f_mkfs, and the partition table, are not modelled; the boot record is a record of its fields, each cut to its width, not bytes.
- Numbers.Atoi: the overflow of a 32-bit int is undefined in the source and not modelled; other bases than ten are not modelled.
- Histograms.GetIndex: the part of a bound that is added is any number that is not negative, instead of 5 % in floating point.
- Sector size is 512, as the configuration fixes it. Times, codes, volume serial numbers and the disk cache flush of CTRL_SYNC are not modelled.
- Directories, paths, labels, time stamps, file locks and f_open but for its last step: large, and mostly case analysis.
- Runs.Perform: of f_sync the data part; with the directory entry it is an operation of `Together.Take`, on FAT12/16/32.
- Lasting.RunSurvives: what the device holds in the middle of a run, before the window is written back, is stated for the moment at which f_sync returns only (`Durability.SyncFat`).
- Durability.SyncFat: that a mount finds the layout again is not derived from the boot sector, the new mount is given the same one, and does not read FSInfo. That f_sync reports success although the transfer of FSInfo failed is modelled, but nothing is said of the window from then on.
- Durability.SyncExfat: the directory entry set (load_obj_xdir, store_xdir) is not modelled; start, size and flags are passed on as values.
- Appending with FA_OPEN_APPEND: f_open's walk to the end is not modelled, a file is opened with the pointer at its start.
- Fast seek inside f_read, f_write and f_lseek: the link map is modelled and proved on its own.
- f_expand, f_forward, f_mount, f_fdisk, TRIM and the string functions.
- The code page tables and ff_wtoupper: an arbitrary function that keeps 0 apart.
- LL_SORT is DL_SORT without the prev pointers and is not written out a second time; CDL_SORT, the hash table, and the list operations other than sorting would only add easy members.
- Rings.ToothLogger.SetNextEntry: the byte order of a record in the packet is not modelled.
- Interrupts and threads: each handler runs as a whole, as under the locks of the source.
- Engine controllers, drivers, TunerStudio output, crc32 and hsReport.
