# Verified models of mltt

mltt is a collection of TI-99/4A tools: an emulator of the console, and programs that read and
write its disks, tapes and files. This project models its most intricate parts in Dafny and proves
what they promise.

* **Disk volumes** (`SectorMap`, `Chains`, `FileModel`, `FileLaws`, `DiskFiles`, `Ownership`,
  `Directory`, `VolumeModel`, `VolumeOps`, `DiskVolumes`, `Reopen`, `Limits`): the sector bitmap, files as
  lists of sector runs packed into 12-bit pairs, read and write across sectors, the sorted
  directory, formatting and reopening a volume.
* **The mounted volume** (`FuseModel`, `FuseRuns`, `FileContents`, `FileHistory`, `Fuse`): the pool
  of file handles, open files that have been unlinked, reference counts, and every run of create,
  open, release, rename, unlink and write, down to the bytes each file holds at the end of the run
  and after the next mount.
* **Cassette tape** (`Cassette`, `TapeEncoder`, `TapeDecoder`, `TapeFraming`, `TapeRoundTrip`): the
  bi-phase level encoder with its sample timing, the blocks recorded twice with checksums, and the
  bit-serial reader that repairs damage.
* **File formats** (`DisVar`, `Basic`, `BasicCodec`): DIS/VAR 80 text records and tokenised BASIC
  images.
* **The TMS9900** (`Cpu`, `CpuArithmetic`, `Contexts`, `CpuObject`, `Disassembler`, `MemoryMap`):
  every instruction, context switches and interrupts, the disassembler, and the memory map.

Where the program updates state in place there is a class with the program's own fields
(`DiskSector`, `DiskFile`, `DiskVolume`, `Mount`, `Cassette`, `TapeDecode`, `Encoder`, `TMS9900`,
`Tms9901`, `Unasm`, `MemoryBus`). Each of its methods is proved to take the abstract value of the
object to the value that a specification function gives, and the theorems are about those
functions. Bytes are integers from 0 to 255, words integers below 65536; wrap-around and truncation
are written out.

Several promises turn out to hold only under a condition. The code is modelled as it is, and the
exact condition is proved:

* a write that starts inside a file's allocated sectors and runs past them loses or displaces
  the file's last sectors whenever a free sector exists (`FileLaws.WriteKeepsSectors`);
* a full disk leaves a length that the sectors do not carry (`FileLaws.WriteKeepsSize`), and an
  incomplete write (`FileLaws.WriteComplete`);
* `read` stops at the last allocated sector and not at the end of the file
  (`FileLaws.ReadStopsAtEnd`);
* only the first 23 runs of a file survive on disk (`FileLaws.EntryFaithful`), and a file created
  and written in a run reads back at the next mount as its writes left it exactly when it has at
  most 23 runs (`FileHistory.WrittenComesBack`);
* a volume opens as a sound one again exactly when no unlinked file was held, no file had more
  than 23 runs, and the bitmap on the device is the one in memory (`Reopen.ReopenSound`); the last
  close of an unlinked file breaks the latter until the next operation that flushes
  (`Reopen.LastCloseUnflushed`, `Reopen.FlushedReopens`);
* a fresh volume's bitmap is exact only for a multiple of 8 sectors (`Reopen.FormatLaw`);
* an unlinked file that no handle is open on is gone, except for one: it is still in the list, with
  its sectors in use, exactly when the run renamed it, because the reference that rename takes is
  never given back (`FuseRuns.GoesUnlessRenamed`);
* a tape keeps a whole number of 64-byte blocks only (`TapeRoundTrip.KeptAll`), and an undetected
  change of the first copy beats a clean second one (`TapeRoundTrip.OneCleanCopy`);
* text after the last newline is lost in DIS/VAR form (`DisVar.RoundTrip`);
* a BASIC program decodes exactly when it has a line and fits below the program top
  (`Basic.ImageRoundTrip`), as long as its sizes do not wrap in the 16-bit header words; the check
  knows what is left of them only, and accepts some programs of 65536 bytes of code or more that
  do not fit (`Basic.CheckLaw`, `Basic.AcceptedThoughTooLong`);
* the disassembler's sweep comes to the end of an image unless that reaches the top of the address
  space (`Disassembler.EndsUnlessAtTop`).

Each failing side of these disk laws is reached by a short run from a freshly formatted volume:
`Limits` gives the runs.

## Model

| member | source | states |
|---|---|---|
| SectorMap.MarkUsed | disksector.cc:36-59 | setting or clearing a run of bitmap bits marks exactly the sectors of the run, and leaves the mark of every other sector |
| SectorMap.MarkKeepsRest | disksector.cc:36-59 | alloc and free touch bitmap bytes only: name, geometry and reserved bytes of the volume header stay |
| SectorMap.FirstFree | disksector.cc:23-34 | findFree gives the lowest free sector from start on, and -1 exactly when none is free |
| SectorMap.DiskSector.IsFree | disksector.cc:12-21 | tells the bit of one sector |
| SectorMap.DiskSector.FindFree | disksector.cc:23-34 | the scan loop finds that first free sector |
| SectorMap.DiskSector.Alloc | disksector.cc:36-46 | in-place loop: the header becomes the header with the run marked, and a flush is due |
| SectorMap.DiskSector.Free | disksector.cc:48-59 | in-place loop: the header becomes the header with the run unmarked, and a flush is due |
| SectorMap.DiskSector.Write | disksector.cc:68-76 | exactly the given bytes of one sector change |
| SectorMap.DiskSector.Sync | disksector.cc:78-86 | the header goes to sector 0 when a flush is due, and only then |
| Chains.OneChainRoundTrip | diskfile.cc:34-45 | two 12-bit numbers packed into three bytes come back unchanged |
| Chains.OneChainOnto | diskfile.cc:34-45 | every three bytes are the packing of what they unpack to: the packing is a bijection |
| Chains.ChainsRoundTrip | diskfile.cc:47-87 | the first 23 runs packed into an entry are read back; all of them if and only if there are no more |
| Chains.EncodeKeepsFields | diskfile.cc:68-87 | packing the runs leaves name, sector count, end offset and the bytes before the slots alone |
| FileModel.InPlace | diskfile.cc:280-397 | the write loop started inside the allocated sectors, for a request that stays inside, rewrites exactly the requested bytes and changes nothing about the file |
| FileModel.Append | diskfile.cc:280-397 | the write loop started at the end of the sectors takes free sectors one by one, keeps the runs sound, and stores all that the free sectors can hold |
| FileModel.Straddle | diskfile.cc:322-357 | a request that starts inside and runs past the end breaks the runs as soon as a sector is taken: the chain index is one short |
| FileModel.WriteRuns | diskfile.cc:317-357 | a write ends with exactly as many runs as the sectors it takes, first fit, add: one for each that does not follow on |
| FileModel.StretchIsOneRun | diskfile.cc:340-357 | however many sectors are taken from a free stretch, they make one run, or lengthen the run they follow on |
| FileModel.LoopKeepsShape | diskfile.cc:307-384 | whatever the request, the loop keeps table and header sizes and never writes more than asked |
| FileLaws.WriteLaw | diskfile.cc:280-397 | a regular write keeps the file owned and sound, appends exactly the newly taken sectors, stores the clipped data at its place, writes no other sector of the device than the file's, and leaves entry and bitmap flushed |
| FileLaws.WriteStraddles | diskfile.cc:322-357 | after an irregular write the sectors walked do not begin with those the file had |
| FileLaws.WriteKeepsSectors | diskfile.cc:322-357 | for every write the caller may make: the sectors walked still begin with those the file had if and only if the write stays inside the allocated sectors, starts at or past their end, or finds the disk full |
| FileLaws.WriteKeepsSize | diskfile.cc:284-385 | for a regular write: sector count and end offset still describe the length if and only if the room suffices for the new end |
| FileLaws.WriteComplete | diskfile.cc:280-397 | for a regular write: all bytes are stored if and only if allocated and free sectors can hold them |
| FileLaws.WriteIsOverwrite | diskfile.cc:241-397 | a complete write is an overwrite of the file seen as a byte sequence, and reading the same place returns what was written |
| FileLaws.ReadStopsAtEnd | diskfile.cc:241-278 | read returns the slice of the bytes; it stops at the end of the file if and only if the request does or the length fills the sectors |
| FileLaws.WriteLeavesOthers | diskfile.cc:280-397 | another file's bytes, ownership and directory entry are untouched |
| FileLaws.EntryFaithful | diskfile.cc:399-424 | the entry read back has the first 23 runs, all of them if and only if there are no more, and the length whenever the sizes agree |
| FileLaws.RunsInRange | diskfile.cc:68-87 | the runs of a file on a disk of at most 1440 sectors always fit the 12-bit fields and are never mistaken for an empty slot |
| DiskFiles.DiskFile.constructor | diskfile.cc:10-25 | a new object is the empty file of that name |
| DiskFiles.DiskFile.Read | diskfile.cc:241-278 | the nested loops fill the buffer with exactly the slice clipped at the last allocated sector, and leave the rest of the buffer alone |
| DiskFiles.DiskFile.Write | diskfile.cc:280-397 | the search, the write loop and the update of the entry together are the write of the file as a value |
| DiskFiles.DiskFile.Locate | diskfile.cc:291-320 | the two search loops end at the run, sector and rest of the offset that the position determines |
| DiskFiles.DiskFile.NewSector | diskfile.cc:322-357 | the allocation branch, with the chain index as the code uses it |
| DiskFiles.DiskFile.Turn | diskfile.cc:307-384 | one pass of the write loop |
| DiskFiles.DiskFile.PackChains | diskfile.cc:68-87 | the slot loop writes the packed runs into the entry and nothing else |
| DiskFiles.DiskFile.UnpackChains | diskfile.cc:47-66 | the slot loop reads the runs, skipping empty slots |
| DiskFiles.DiskFile.ReadDirEnt | diskfile.cc:399-412 | the object becomes the file its directory sector describes |
| DiskFiles.DiskFile.Sync | diskfile.cc:414-424 | the entry is written when it is due, then the bitmap |
| DiskFiles.DiskFile.Create | diskfile.cc:183-197 | takes the first free sector of the disk for the entry, or fails and changes nothing on the disk |
| DiskFiles.DiskFile.SetOSName | diskfile.cc:27-32 | both names change, the rest of the entry stays |
| DiskFiles.DiskFile.FreeResources | diskfile.cc:112-135 | frees every run and the directory sector, and nothing while somebody holds the file |
| DiskFiles.DiskFile.Close | diskfile.cc:137-150 | the last close of an unlinked file frees its sectors, any other close none |
| DiskFiles.DiskFile.Unlink | diskfile.cc:152-169 | frees the sectors at once exactly when nobody holds the file |
| Ownership.GrowKeeps | diskfile.cc:322-357 | when a file takes free sectors, the bitmap stays exact and no sector is owned twice |
| Ownership.InsertKeeps | diskfile.cc:183-197 | a file that owns just taken sectors joins the list without disturbing the allocation invariant |
| Ownership.FreeKeeps | diskfile.cc:112-135 | freeing a file and dropping it from the list keeps the allocation invariant |
| Ownership.FreeFileUsed | diskfile.cc:112-135 | freeing a file clears the bits of its own sectors and of no other |
| Ownership.BitmapDetermined | diskfile.cc:112-197 | two disks with the same live files have the same bitmap: whatever a removed file had taken is back |
| Directory.LessTotal | diskvolume.cc:63-73 | comparing names is a strict total order |
| Directory.LessTransitive | diskvolume.cc:63-73 | comparing names is transitive |
| Directory.AddedSorted | diskvolume.cc:55-80 | inserting a file before the first greater name keeps the list in order |
| Directory.RemovedSorted | diskvolume.cc:82-95 | taking a file out keeps the list in order |
| Directory.DirRoundTrip | diskvolume.cc:97-136 | the directory sector names exactly the linked files, in order, even when all 128 entries are in use and no zero ends the list |
| Directory.AddedLast | diskvolume.cc:55-80 | a file that is not smaller than any other goes to the end: reading a sorted directory keeps its order |
| Directory.LinkedSorted | diskvolume.cc:116-136 | dropping unlinked files keeps the order |
| VolumeModel.SyncLinkedKeeps | diskvolume.cc:116-136 | flushing the linked files one after the other keeps allocation, order and every entry on the device |
| VolumeModel.UpdateKeeps | diskvolume.cc:116-136 | after updateDirectory the sector in memory lists exactly the linked files, and all their entries are on the device |
| VolumeModel.SyncVolKeeps | diskvolume.cc:306-316 | the flush puts the directory sector on the device and restores the invariant between operations |
| VolumeModel.FlushKeeps | diskvolume.cc:194-210 | the closing sequence of create and rename ends in the invariant, whichever of the files was still to be flushed |
| VolumeOps.FileCreate | diskvolume.cc:194-210 | create keeps the volume invariant and fails exactly when no sector is free |
| VolumeOps.CreateLaw | diskvolume.cc:194-210 | the new file is in its place in the list, held once and empty; all other files are as they were |
| VolumeOps.FileOpen | diskvolume.cc:181-192 | open keeps the volume invariant |
| VolumeOps.FileClose | diskvolume.cc:250-257 | close keeps the volume invariant, also when it frees the file |
| VolumeOps.FileUnlink | diskvolume.cc:212-237 | unlink keeps the volume invariant and fails exactly when there is no such name |
| VolumeOps.UnlinkLaw | diskvolume.cc:212-237 | an unheld file leaves the list, a held one is only marked; the other files are as they were |
| VolumeOps.FileRename | diskvolume.cc:240-248 | rename keeps the volume invariant |
| VolumeOps.RenameLaw | diskvolume.cc:240-248 | the file has its new name and place, and everything else of it and of the others is as it was |
| VolumeOps.FileWrite | diskfile.cc:280-397 | a regular write keeps the volume invariant, the file's identity, and every other file |
| VolumeOps.WrittenKeeps | diskfile.cc:280-397 | the allocation invariant, the order and every entry on the device survive a regular write |
| DiskVolumes.DiskVolume.FileAccess | diskvolume.cc:164-179 | the loop finds the first file with the name, unlinked or not |
| DiskVolumes.DiskVolume.AddFileToList | diskvolume.cc:55-80 | the object list and the list of values agree on the insertion |
| DiskVolumes.DiskVolume.RemoveFileFromList | diskvolume.cc:82-95 | rebuilding the list drops exactly this object |
| DiskVolumes.DiskVolume.UpdateDirectory | diskvolume.cc:116-136 | the loop over shared objects flushes each linked file and lists it |
| DiskVolumes.DiskVolume.Sync | diskvolume.cc:306-316 | the directory sector when it is due, then the bitmap |
| DiskVolumes.DiskVolume.FileOpen | diskvolume.cc:181-192 | the object's operation is the volume's as a value |
| DiskVolumes.DiskVolume.FileCreate | diskvolume.cc:194-210 | the same for create, whatever the fields the constructor leaves alone held |
| DiskVolumes.DiskVolume.FileUnlink | diskvolume.cc:212-237 | the same for unlink |
| DiskVolumes.DiskVolume.FileRename | diskvolume.cc:240-248 | the same for rename, with the same objects in the list |
| DiskVolumes.DiskVolume.FileClose | diskvolume.cc:250-257 | the same for close |
| Reopen.Format | diskvolume.cc:140-162 | the loop over missing sectors and the field assignments leave the specified header |
| Reopen.NewUsed | diskvolume.cc:153-158 | in a fresh bitmap a sector is used exactly when it is 0, 1 or in a byte that reaches past the end |
| Reopen.FormatLaw | diskvolume.cc:140-162 | a fresh volume is empty, and sound if and only if its sector count is a multiple of 8 or it has only the system sectors |
| Reopen.FormattedIsNew | diskvolume.cc:140-162 | what format writes over a zeroed header is a new header in the sense of the next laws: the sector count and the bitmap |
| Reopen.FormatThenRun | mltt-disk.cc:126-143 | for every name and geometry: the image format makes opens empty, sound exactly for a multiple of 8 sectors or the two system sectors, and then every permitted run keeps allocation, order and the sector count on the device |
| Reopen.CountOnDevice | diskvolume.cc:330-334 | the sector count in the header on the device is always the size of the device |
| Reopen.EveryRunIsSound | mltt-fuse.cc:189-401 | every permitted run from a fresh volume keeps the allocation invariant, the directory order, the handle pool and the reference counts |
| Reopen.ReopenReadsBack | diskvolume.cc:97-114 | opening the device again lists the linked files and no others in the same order, each with its attributes, first 23 runs and length |
| Reopen.ReopenSound | diskvolume.cc:318-348 | the reopened volume is sound if and only if no unlinked file was held, no file has more than 23 runs, and the device's bitmap marks the sectors marked in memory |
| Reopen.LastCloseUnflushed | diskvolume.cc:250-257 | the last close of an unlinked file leaves its sectors marked on the device, which then does not open as a sound volume |
| Reopen.FlushedReopens | diskvolume.cc:306-348 | after any successful create, rename, unlink or write the reopened volume is sound if and only if no unlinked file is held and no file has more than 23 runs |
| Limits.StraddleAndStaleRead | diskfile.cc:241-397 | from a fresh volume, create and a one-byte write: a longer write over it is attempted, straddles and loses the sector, and a two-byte read returns a byte past the end |
| Limits.FullDisk | diskfile.cc:317-385 | from a fresh volume, one write of a byte more than the disk holds is accepted whole as one run, comes back short, and leaves a length the sectors do not carry |
| Limits.ManyRuns | diskfile.cc:47-87 | from a fresh volume, two files written sector by sector in turn come to 24 runs each; every write is reported whole, yet the file reads differently at the next mount |
| Limits.RenamedStays | mltt-fuse.cc:215-233 | from a fresh volume, create, rename, unlink and release: no handle is open and the file is unlinked, yet it is still in the list and its directory sector in use |
| Limits.LastClose | diskvolume.cc:212-257 | from a fresh volume, create, unlink and release leave no file and a device that does not open as a sound volume |
| FuseModel.StepKeeps | mltt-fuse.cc:189-401 | each operation of the mount keeps the volume invariant, the pool and the counts |
| FuseModel.PoolCount | mltt-fuse.cc:54-72 | free and used handles always add up to 128 |
| FuseModel.MountKeeps | mltt-fuse.cc:60-72 | mounting a sound volume starts in the invariant |
| FuseRuns.StepLive | mltt-fuse.cc:189-401 | a file is in the list after a step exactly when it was and did not leave, or the step made it; identities are never reused |
| FuseRuns.SectorsComeBack | diskfile.cc:112-169 | when a file leaves, exactly the sectors it had taken become free |
| FuseRuns.GoneForGood | diskvolume.cc:212-257 | once gone, a file stays gone for the rest of any run |
| FuseRuns.FreedOnce | diskvolume.cc:212-257 | a step takes a file off the list if and only if it is its last close after an unlink or its unlink while unheld, and then nothing frees it again |
| FuseRuns.HandleKept | mltt-fuse.cc:266-318 | a handle in use keeps its file through any run without its release, and the file stays in the list |
| FuseRuns.GivesFreeHandle | mltt-fuse.cc:266-318 | create and open hand out the head of the free list, unused until then, on a live file; no other operation but release touches the pool |
| FuseRuns.PoolWhole | mltt-fuse.cc:385-401 | at any point of any run the pool is whole, no handle refers to a removed file, and the handles on a file never exceed its references |
| FuseRuns.OnlyRenamePins | mltt-fuse.cc:215-233 | after any step a file has a reference nobody holds if and only if it had one before or the step is a rename that finds it |
| FuseRuns.GoesUnlessRenamed | diskvolume.cc:212-257 | for every run and every file it unlinks and leaves no handle open on: the file is still in the list if and only if the run renamed it |
| FuseRuns.GoesUnlessRenamedSinceMount | mltt-fuse.cc:189-401 | the same since the mount, for the files it found as well as those created later |
| FuseRuns.RenamedNeverFreed | mltt-fuse.cc:215-233 | a file with a reference nobody holds stays in the list through every further run, even after unlink and the last close |
| FileContents.CreateData | diskvolume.cc:194-210 | creating a file, with the flush that follows, changes no data sector of any file on the device |
| FileContents.RenameData | diskvolume.cc:240-248 | renaming changes no data sector of any file |
| FileContents.UnlinkData | diskvolume.cc:212-237 | unlinking changes no data sector of any file that stays in the list |
| FileContents.WriteData | diskfile.cc:280-397 | a write changes no data sector of any other file, of all the volume's files at once |
| FileContents.OnlyWritesChange | mltt-fuse.cc:189-401 | through any run that never writes through a handle on a file, the file, while it is there, keeps every byte of its sectors and its length |
| FileHistory.OwnWrite | mltt-fuse.cc:340-358 | a write through a handle that starts at or before the end and reports the whole request overwrites that place of the file's byte sequence |
| FileHistory.RunReplays | mltt-fuse.cc:189-401 | refinement to byte sequences over whole runs: while other files come, grow, move and go, a file holds what replaying its own writes on its first bytes gives |
| FileHistory.CreatedEmpty | diskvolume.cc:194-210 | a created file holds the empty byte sequence, with length and entry to match |
| FileHistory.ReadsWithin | diskfile.cc:241-278 | inside the length, a read returns the slice of the bytes the file holds |
| FileHistory.NextMountReads | diskvolume.cc:318-348 | opening the device again, a linked file has its length, and reading it gives its bytes if and only if it has at most 23 runs |
| FileHistory.WrittenComesBack | mltt-fuse.cc:266-401 | end to end: create a file, let any run happen, open the device again; it reads as the replay of its writes if and only if at most 23 runs hold it |
| Fuse.Mount.constructor | mltt-fuse.cc:60-72 | the linked list of handles starts with all 128, in order |
| Fuse.Mount.Create | mltt-fuse.cc:266-294 | the callback over the linked list is one create step; refused when the name exists or no handle is free |
| Fuse.Mount.Open | mltt-fuse.cc:296-318 | one open step; the handle given was unused |
| Fuse.Mount.Release | mltt-fuse.cc:385-401 | one release step; the handle is the new head of the list |
| Fuse.Mount.Rename | mltt-fuse.cc:215-233 | one rename step, with the reference it leaks |
| Fuse.Mount.Unlink | mltt-fuse.cc:189-201 | one unlink step |
| Fuse.Mount.Write | mltt-fuse.cc:340-358 | one write step on the file the handle is open on |
| Fuse.Mount.Read | mltt-fuse.cc:320-338 | through a handle, the slice of the file's sectors lands in the buffer and nothing else changes; inside the length it is the slice of the bytes the file holds |
| Cassette.Cassette.ModulationToggle | cassette.cc:108-111 | remembers the level change for the next half-cell |
| Cassette.Cassette.TimerExpired | cassette.cc:74-94 | plays one segment chosen by the three last levels; the samples written are the elapsed time times the rate, rounded down once |
| Cassette.DriftFree | cassette.cc:76-94 | a carried fraction never lets the sample count drift: after any time it is the exact product rounded down |
| Cassette.RegisterValid | cassette.cc:57-111 | after the first half-cell the register is never 000 or 111, for every bit stream |
| Cassette.PhaseContinuous | cassette.cc:57-94 | each segment starts at the phase where the one before ended |
| Cassette.DemodulateCells | cassette.cc:74-111 | comparing the halves of each cell gives back every bit but the last one sent |
| TapeEncoder.OutputByte | mltt-tape.cc:299-312 | the eight bits go out as cells, most significant first, in sixteen half-cells of time |
| TapeEncoder.OutputBlock | mltt-tape.cc:314-332 | one copy of a block: preamble, mark, data and checksum, and the time it takes |
| TapeEncoder.OutputWav | mltt-tape.cc:334-355 | the whole recording as cells, for every input size; the samples written are exactly those of the time its half-cells take |
| TapeEncoder.FileCloseWrite | cassette.cc:205-223 | the closing cells push the last bit out, in sixteen dribble periods, with the exact sample total |
| TapeDecoder.TapeDecode.DecodeBit | mltt-tape.cc:243-293 | the bit-serial method is one step of the abstract reader |
| TapeDecoder.TapeDecode.DecodeBlock | mltt-tape.cc:114-241 | the byte-level method is the reader's step on a complete byte |
| TapeDecoder.TapeDecode.CheckCopies | mltt-tape.cc:140-225 | the copy kept is the chosen one, and the flags say what was noticed |
| TapeDecoder.TapeDecode.Feed | mltt-tape.cc:380-410 | a whole stream of bits is a run of the reader |
| TapeDecoder.OutGrows | mltt-tape.cc:114-293 | the reader never takes back data, whatever the bits |
| TapeFraming.RunGap | mltt-tape.cc:243-279 | a preamble only counts, whatever noise its first bits hold |
| TapeFraming.RunRecording | mltt-tape.cc:114-293 | any framed recording, however damaged inside the frame, yields its chosen copies and one record |
| TapeFraming.DecodeTape | mltt-tape.cc:114-293 | any number of recordings in a row decode to the chosen copies in order, and errors are reported exactly when some block was damaged |
| TapeRoundTrip.KeptAll | mltt-tape.cc:343-350 | the recording holds exactly the input if and only if its size is a multiple of 64 |
| TapeRoundTrip.SingleByteBreaksSum | mltt-tape.cc:140-160 | damage to any one data or checksum byte is always detected |
| TapeRoundTrip.OneCleanCopy | mltt-tape.cc:160-225 | with one clean copy the block comes out right if and only if the first copy still holds the data or fails its sum |
| TapeRoundTrip.DamagedTape | mltt-tape.cc:114-293 | a tape of several recordings with one copy of each block damaged in any detected way, and noisy preambles, gives back all the data |
| TapeRoundTrip.SessionRoundTrip | mltt-tape.cc:299-355 | what the encoder plays, demodulated and decoded, is every file of the session in order, with no error |
| TapeRoundTrip.RecordAll | mltt-tape.cc:464-472 | a session of recordings goes out as one stream of cells, and its sample total is that of its whole playing time, rounded down once |
| TapeRoundTrip.RecordAndExtract | mltt-tape.cc:412-506 | the two objects end to end: record all, read all |
| DisVar.RecordFits | file_disvar.cc:51-71 | a record and the byte after it lie in one sector, and padding ends on a sector boundary |
| DisVar.SectorsAreFull | file_disvar.cc:51-71 | every closed sector carries at least 175 bytes of records |
| DisVar.SizeBound | file_disvar.cc:33-76 | 175 times the output is at most 256 times the input |
| DisVar.Next | file_disvar.cc:87-104 | the reader's position strictly grows on any input |
| DisVar.RoundTrip | file_disvar.cc:33-107 | decoding gives the text up to its last newline; all of it if and only if nothing follows that newline |
| DisVar.EncodeDisVar | file_disvar.cc:33-76 | the pointer loop writes exactly the packed records, or reports a line over 80 bytes |
| DisVar.PadSector | file_disvar.cc:55-66 | fills up to the sector boundary |
| DisVar.DecodeDisVar | file_disvar.cc:78-107 | the pointer loop writes exactly the unpacked text |
| Basic.ItemsRoundTrip | tibasic_decode.cc:74-145 | the decoder's steps through a line find exactly the items emitted and end exactly at its end |
| Basic.BytesRoundTrip | tibasic_decode.cc:74-145 | any bytes the steps get through are what those items emit: no byte is skipped or read twice |
| Basic.CheckLaw | tibasic_decode.cc:148-162 | for any number of lines and any code size, an encoded header passes the check if and only if what is left of code and table sizes in 16 bits fits below the program top; the count is then the number of lines in 14 bits |
| Basic.AddressLeadsBack | tibasic_encode.cc:333-349 | a relocated address in the reversed table leads back to the line's length byte |
| Basic.SeemsOrFits | tibasic_encode.cc:345-352 | a program that fits is seen to fit; one that does not can only seem to from 65536 bytes of code or 16385 lines on |
| Basic.ImageRoundTrip | tibasic_encode.cc:306-355 | the check accepts an image exactly when it seems to fit; the lines of one that fits are visited exactly, in source order; and unless one that does not fit seems to, no other is decoded |
| Basic.WrappedNeverDecodes | tibasic_decode.cc:199-211 | with 16384 lines or more, or 65536 bytes of code or more and a table that ends at least 264 bytes above address 0, an image never gives its lines back: it is refused, or the decoder counts fewer lines, or some address leads in front of the data |
| Basic.AcceptedThoughTooLong | tibasic_decode.cc:148-162 | 258 full lines: the check accepts them and counts 258, though they do not fit, and one of their addresses leads in front of the data |
| BasicCodec.Encoder.EmitItem | tibasic_encode.cc:40-108 | appends the item's bytes and changes nothing beyond |
| BasicCodec.Encoder.ProcessLine | tibasic_encode.cc:261-304 | appends the items and the end of line |
| BasicCodec.Encoder.EncodeBasicProgram | tibasic_encode.cc:306-355 | the passes over the buffer, with its memmove, leave exactly the image |
| BasicCodec.CheckHeader | tibasic_decode.cc:148-162 | the header check with its sign handling |
| BasicCodec.DecodeLine | tibasic_decode.cc:74-145 | the loop yields the items of the line |
| BasicCodec.DecodeBasicProgram | tibasic_decode.cc:164-221 | the loop over the table yields the program's lines, or nothing when the check fails |
| BasicCodec.EncodeThenDecode | mltt-file.cc:145-195 | encoder and decoder end to end: the same lines come back if and only if there is one and they fit; programs that do not fit but seem to are left out |
| CpuArithmetic.JumpAfterCompare | cpu.cc:258-265 | each conditional jump after a comparison is taken if and only if the signed or unsigned relation it is named for holds |
| CpuArithmetic.AddSubtractMeaning | cpu.cc:822-903 | A and S are modular; carry is the unsigned carry or no borrow; overflow is set if and only if the signed result does not fit |
| CpuArithmetic.ShiftMeaning | cpu.cc:581-657 | SRL divides unsigned, SRA signed and rounding down, SLA multiplies, SRC exchanges low and high bits |
| CpuArithmetic.ShiftCarryMeaning | cpu.cc:581-657 | the carry is the last bit moved out, in all four shifts |
| CpuArithmetic.RegisterRun | cpu.cc:581-657 | any run of shift instructions on a register applies the counts it uses in turn, a 0 field standing for R0's low four bits or 16, and the carry is the last shift's |
| CpuArithmetic.ShiftInstructionRuns | cpu.cc:581-657 | any run of SRL, SRA or SLA instructions is one division or multiplication by two to the sum of the counts used, and any run of SRC one rotation by the sum modulo 16 |
| CpuArithmetic.MultiplyExact | cpu.cc:729-735 | MPY leaves the exact 32-bit product |
| CpuArithmetic.DivideExact | cpu.cc:737-753 | DIV sets overflow if and only if the quotient does not fit, and else satisfies the division identity |
| CpuArithmetic.MpyThenDiv | cpu.cc:729-753 | MPY then DIV by the same nonzero word, in any addressing modes that keep apart from the two registers, restores the register with remainder 0 |
| Contexts.MaskKept | cpu.cc:343-935 | no instruction but LIMI and RTWP changes the interrupt mask |
| Contexts.Accepts | cpu.cc:997-1015 | an interrupt is accepted if and only if the mask is not zero and one is pending; it saves the whole context and leaves mask 0 |
| Contexts.NoSecondInterrupt | cpu.cc:997-1015 | after an interrupt the run goes on as if nothing were pending until LIMI or RTWP |
| Contexts.BlwpSaves | cpu.cc:134-147 | BLWP loads the new context and saves the old one in R13 to R15 of the new workspace |
| Contexts.ReturnRestores | cpu.cc:149-154 | RTWP in an intact workspace restores the saved context |
| Contexts.WpKept | cpu.cc:343-935 | no instruction but LWPI, BLWP and RTWP changes the workspace pointer |
| Contexts.BracketedIsDisciplined | cpu.cc:134-154 | a well-bracketed run without LWPI that leaves the saved words of open frames alone makes every return in the workspace of its own switch, and ends inside the innermost open one |
| Contexts.SwitchesNest | cpu.cc:134-154 | after a BLWP or an accepted interrupt, let any such run follow, inner switches and returns included: an RTWP at its own depth gives back the workspace, program counter and status the switch left |
| Contexts.DisciplinedSwitchesNest | cpu.cc:134-154 | the same for runs that also load the workspace pointer, provided each return is made in its switch's workspace |
| Contexts.StepIsHalves | cpu.cc:937-1016 | every call of execute is an instruction and perhaps an accepted interrupt |
| CpuObject.TMS9900.OperandDecode | cpu.cc:275-303 | the four addressing modes, with their side effects |
| CpuObject.TMS9900.ExecuteImmediate | cpu.cc:343-422 | fields and memory after each immediate instruction |
| CpuObject.TMS9900.ExecuteSingle | cpu.cc:424-579 | the same for one operand |
| CpuObject.TMS9900.ExecuteShift | cpu.cc:581-657 | the same for shifts, with the count rules |
| CpuObject.TMS9900.ExecuteJump | cpu.cc:662-691 | the same for jumps and single CRU bits |
| CpuObject.TMS9900.ExecuteDual1 | cpu.cc:693-783 | the same for a register and an operand |
| CpuObject.TMS9900.ExecuteDual2 | cpu.cc:788-928 | the same for two operands |
| CpuObject.TMS9900.ExecuteNext | cpu.cc:937-1016 | fetch, execute and accept an interrupt is one step of the CPU as a value |
| CpuObject.Tms9901.InterruptLevel | interrupt.cc:51-78 | the loop answers 1 exactly when an interrupt is active: what it reads one past the end is a flag that is always clear |
| CpuObject.Tms9901.BitSet | interrupt.cc:160-196 | one of CRU bits 1 to 15 enables its interrupt and clears it, or disables it; flag 0 stays clear |
| CpuObject.Tms9901.Interrupt | interrupt.cc:80-100 | a low line raises its interrupt unless it is disabled |
| Disassembler.Unasm.PreExec | unasm.cc:296-372 | the bytes consumed for each type and addressing mode, none where already covered |
| Disassembler.FetchAgrees | unasm.cc:84-120 | for every accepted instruction that does not transfer control, the CPU fetches exactly the words the disassembler skips |
| Disassembler.SweepMatchesTrace | mltt-disasm.cc:54-73 | for every memory image and start, the sweep's boundaries are the addresses at which a straight run executes |
| Disassembler.Sweep | mltt-disasm.cc:54-73 | for every image whose sweep ends, the loop lists exactly the boundaries from the start to the end of the image |
| Disassembler.EndsUnlessAtTop | mltt-disasm.cc:54-73 | the sweep ends for every image that stays clear of the last five bytes of the address space, and never for one that reaches its end |
| Disassembler.TopPageNeverEnds | mltt-disasm.cc:54-73 | an 8K image at the top of the address space is listed for ever |
| MemoryMap.EveryAddressHasALeaf | mem.cc:73-103 | every address reaches a leaf in at most two table steps, at an offset inside it |
| MemoryMap.ByteStore | mem.cc:129-154 | RAM and scratch pad are a byte store up to the four-fold mirror, whatever else is written |
| MemoryMap.WordStore | mem.cc:129-154 | words are big-endian over the same bytes and ignore the low address bit; a word write changes no other cell |
| MemoryMap.BanksFollowSelects | mem.cc:183-214 | after any run of writes the ROMs are unchanged and cartridge reads come from the bank selected last |
| MemoryMap.MemoryBus.MemMapEntry | mem.cc:235-249 | the table walk ends at that leaf |
| MemoryMap.MemoryBus.ReadByte | mem.cc:251-266 | a byte read |
| MemoryMap.MemoryBus.WriteByte | mem.cc:257-271 | a byte write, bank selects included |
| MemoryMap.MemoryBus.ReadWord | mem.cc:129-140 | a word read through the map, from the word boundary |
| MemoryMap.MemoryBus.WriteWord | mem.cc:142-154 | a word write through the map, bank selects included |

## Left out

- FileModel.Write: asks for no gap of more than one sector past the allocated end, where the original computes a negative chunk size, and that the runs in use afterwards are at most the 76 of the table, past which the original writes.
- VolumeOps.FileWrite: asks for a regular write; an irregular one breaks the invariant, as FileLaws.WriteKeepsSectors states.
- Fuse.Mount.Write: the callback passes on any request; irregular ones are left to FileModel.Write and FileLaws.WriteKeepsSectors.
- FileLaws.WriteIsOverwrite: asks for a write that starts at or before the end of the file; a gap leaves whatever the sectors held.
- FileHistory.RunReplays: asks the same of every write to the file, and that each reports the whole request.
- VolumeOps.FileCreate: asks for fewer than 128 linked files, since the original writes past its directory sector at the 129th.
- DiskFiles.DiskFile.Write: the run table is a 76-element value in a field, not an array with its own address.
- Reopen.OpenVolume: asks that the header's sector count is the image's size, as it is on every device a run leaves (Reopen.CountOnDevice); it also gives every file the same arbitrary unused table entries.
- Directory.Less: compares the ten name characters; the original's comparison would go on into the reserved bytes after them, which are zero in files these tools make.
- File names over ten characters, the free-sector count that is only computed at open, and the extended attributes and file types of an entry.
- TapeEncoder.OutputWav: the input buffer must hold one byte more when its size leaves remainder 63, as the original reads it.
- TapeDecoder.TapeDecode.Feed: asks that the output buffer can hold the recordings; the original does not check.
- Cassette.DemodulateCells: listens to ideal segments; the sine samples, the WAV header and the analyser of noisy signals are not part of this model.
- DisVar.DecodeDisVar: asks that no record runs past the end of the data; the original would read on.
- Basic: parsing BASIC source into tokens and printing tokens as text; spacing makes that no identity. Lines over 254 token bytes, strings over 255 bytes and line numbers from 65536 on.
- BasicCodec.EncodeThenDecode: asks that a program which does not fit does not seem to, and for at most the 32767 lines of the encoder's table; else the original reads in front of the data, or writes past the table.
- Basic.WrappedNeverDecodes: says nothing of code from 65536 bytes on whose table ends less than 264 bytes above address 0; there an address can lead into the table.
- BasicCodec.DecodeBasicProgram: asks that the table and lines of an accepted header lie inside the data; the original would read on. It does not swap the header in place.
- Cpu.Execute: memory is plain RAM (devices answer through MemoryMap or not at all), X is handed back instead of recursing, XOP has no handler as in the emulator, and bits sent to the CRU are not recorded.
- Cpu: no claim that the flags of AB, SB, NEG, ABS, SLA overflow, COC and CZC are the chip's; they are modelled as the program computes them.
- Contexts.DisciplinedSwitchesNest: for code that loads the workspace pointer between switches, the workspace of each return is a condition and not a result.
- Disassembler.EndsUnlessAtTop: for an image that ends in the last five bytes of the address space it depends on the code whether the sweep hits them; Sweep asks that it does end.
- Disassembler.Unasm.PreExec: the text of the listing.
- MemoryMap: devices behind the ports, device ROM and its disk controller, the GROM, sound and video.
- All other host input and output, the debugger, speech, SAMS, the GPL trace and the web front end.
