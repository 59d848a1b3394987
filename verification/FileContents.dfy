/** A mounted volume seen as byte sequences: nothing but a write through its own handle changes
    what a file holds. */
module FileContents {
  import opened Bytes
  import opened SectorMap
  import opened Chains
  import opened FileModel
  import opened FileLaws
  import opened Ownership
  import opened Directory
  import opened VolumeModel
  import opened VolumeOps
  import opened FuseModel
  import opened FuseRuns

  /** No data sector of these files differs on the device. */
  ghost predicate DataKept(d: Disk, d': Disk, fs: seq<File>) {
    && |d'.dev| == |d.dev| && WfFiles(fs)
    && forall i, s :: 0 <= i < |fs| && s in Sectors(fs[i]) && 0 <= s < |d.dev| ==> d'.dev[s] == d.dev[s]
  }

  /** Each of fs has the sectors of one of gs. */
  ghost predicate Covers(gs: seq<File>, fs: seq<File>) {
    WfFiles(fs) && WfFiles(gs) && forall i :: 0 <= i < |fs| ==> HasSectors(gs, fs[i])
  }

  ghost predicate HasSectors(gs: seq<File>, f: File)
    requires WfFiles(gs) && WfFile(f)
  {
    exists j :: 0 <= j < |gs| && Sectors(gs[j]) == Sectors(f)
  }

  lemma HasAt(gs: seq<File>, j: nat, f: File)
    requires WfFiles(gs) && WfFile(f) && j < |gs| && Sectors(gs[j]) == Sectors(f)
    ensures HasSectors(gs, f)
  {
  }

  lemma KeptNext(d: Disk, d1: Disk, d2: Disk, fs: seq<File>, gs: seq<File>)
    requires DataKept(d, d1, fs) && DataKept(d1, d2, gs) && Covers(gs, fs)
    ensures DataKept(d, d2, fs)
  {
    hide Walk, Sectors;
    forall i, s | 0 <= i < |fs| && s in Sectors(fs[i]) && 0 <= s < |d.dev| ensures d2.dev[s] == d.dev[s] {
      assert HasSectors(gs, fs[i]);
    }
  }

  lemma KeptSame(d: Disk, d': Disk, fs: seq<File>)
    requires WfFiles(fs) && d'.dev == d.dev
    ensures DataKept(d, d', fs)
  {
  }

  /** Directory sectors and the two system sectors hold nobody's data. */
  lemma DirIsNoData(d: Disk, fs: seq<File>, i: nat, k: nat, s: int)
    requires Allocated(d, fs) && i < |fs| && k < |fs| && s in Sectors(fs[k])
    ensures s != fs[i].dir && s >= FIRST_DATA_SECTOR && s < |d.dev| && Used(d.vol, s)
  {
    hide Walk, Used, SecCount, Exact;
    assert Owned(d, fs[k]);
    DataSectors(d, fs[k]);
    if i != k {
      DirsDiffer(d, fs, i, k);
    }
  }

  lemma CoversSelf(fs: seq<File>, gs: seq<File>)
    requires WfFiles(fs) && WfFiles(gs) && |fs| == |gs| && forall i :: 0 <= i < |fs| ==> Sectors(gs[i]) == Sectors(fs[i])
    ensures Covers(gs, fs)
  {
    forall i | 0 <= i < |fs| ensures HasSectors(gs, fs[i]) {
      HasAt(gs, i, fs[i]);
    }
  }

  // ----- flushing

  lemma SyncAtData(v: Vol, i: nat)
    requires Steady(v) && i < |v.files|
    ensures WfVol(v) && DataKept(v.disk, SyncAt(v, i).disk, v.files)
  {
    SteadyWf(v);
    hide Walk, Used, SecCount, Apart, Exact, EntriesOk, UniqueInodes, Sorted, AllOwned, SyncFile, Sectors;
    var f, d := v.files[i], v.disk;
    DirAbove(d, v.files, i);
    SyncFileFacts(d, f);
    var d' := SyncAt(v, i).disk;
    forall k, s | 0 <= k < |v.files| && s in Sectors(v.files[k]) && 0 <= s < |d.dev| ensures d'.dev[s] == d.dev[s] {
      DirIsNoData(d, v.files, i, k, s);
      OtherSector(d, d', f.dir, s);
    }
  }

  lemma CleanedCovers(fs: seq<File>, us: seq<File>, n: nat)
    requires WfFiles(fs) && CleanedUpTo(fs, us, n)
    ensures WfFiles(us) && Covers(us, fs)
  {
    hide Walk;
    CoversSelf(fs, us);
  }

  lemma {:induction false} SyncedData(v: Vol, n: nat)
    requires Steady(v) && n <= |v.files|
    ensures WfVol(v) && DataKept(v.disk, SyncedUpTo(v, n).disk, v.files)
    decreases n
  {
    SteadyWf(v);
    hide Steady, SyncFile, SyncLinked, SyncedUpTo, DataKept, CleanedUpTo, SyncAt, Covers, WfDisk;
    if n == 0 {
      NothingSynced(v);
      KeptSame(v.disk, v.disk, v.files);
    } else {
      SyncedData(v, n - 1);
      SyncLinkedKeeps(v, n - 1);
      var u := SyncedUpTo(v, n - 1);
      SteadyWf(u);
      CleanedNext(v.files, u.files, n);
      CleanedCovers(v.files, u.files, n - 1);
      OneMoreSynced(v, n);
      if !v.files[n - 1].unlinked {
        SyncAtData(u, n - 1);
        KeptNext(v.disk, u.disk, SyncAt(u, n - 1).disk, v.files, u.files);
      }
    }
  }

  lemma UpdateData(v: Vol)
    requires Steady(v) && |Linked(v.files)| <= MAX_ENTRIES
    ensures WfVol(v) && DataKept(v.disk, UpdateDirectory(v).disk, v.files)
  {
    SteadyWf(v);
    hide Steady, SyncedUpTo, UpdateDirectory, Linked, Dirs, DirBytes, DataKept;
    SyncedData(v, |v.files|);
    AllSynced(v);
  }

  lemma SyncVolData(v: Vol)
    requires Steady(v) && v.dirDirty
    ensures WfVol(v) && DataKept(v.disk, SyncVol(v).disk, v.files)
  {
    SteadyWf(v);
    SyncVolDisk(v);
    hide Walk, Used, SecCount, Apart, Exact, EntriesOk, UniqueInodes, Sorted, AllOwned, SyncVol, Sectors;
    var d, d' := v.disk, SyncVol(v).disk;
    forall k, s | 0 <= k < |v.files| && s in Sectors(v.files[k]) && 0 <= s < |d.dev| ensures d'.dev[s] == d.dev[s] {
      DirIsNoData(d, v.files, k, k, s);
    }
  }

  lemma FlushData(v: Vol, i: nat)
    requires Steady(v) && |Linked(v.files)| <= MAX_ENTRIES && i < |v.files|
    requires forall k :: 0 <= k < |v.files| && k != i ==> !v.files[k].dirty
    ensures WfVol(v) && WfVol(UpdateDirectory(v)) && WfVol(SyncAt(UpdateDirectory(v), i))
    ensures DataKept(v.disk, Flush(v, i).disk, v.files)
  {
    SteadyWf(v);
    hide Steady, Linked, SyncAt, SyncVol, WfVol, UpdateDirectory, DataKept, Covers, CleanedUpTo, DirBytes;
    FlushKeeps(v, i);
    UpdateKeeps(v);
    UpdateData(v);
    var u := UpdateDirectory(v);
    CleanedSize(v.files, u.files);
    UpdatedCovers(v, u);
    SyncAtKeeps(u, i);
    SyncAtData(u, i);
    var w := SyncAt(u, i);
    KeptNext(v.disk, u.disk, w.disk, v.files, u.files);
    ReplacedCovers(u.files, i);
    CoversTwice(v.files, u.files, w.files);
    SyncVolData(w);
    KeptNext(v.disk, w.disk, SyncVol(w).disk, v.files, w.files);
  }

  lemma UpdatedCovers(v: Vol, u: Vol)
    requires Steady(v) && Updated(v, u)
    ensures Covers(u.files, v.files) && WfFiles(u.files)
  {
    SteadyWf(v);
    hide Steady, Linked, Dirs, DirBytes;
    CleanedCovers(v.files, u.files, |v.files|);
  }

  lemma ReplacedCovers(us: seq<File>, i: nat)
    requires WfFiles(us) && i < |us|
    ensures Covers(us[i := Cleaned(us[i], true)], us)
  {
    hide Walk;
    CoversSelf(us, us[i := Cleaned(us[i], true)]);
  }

  lemma CoversTwice(fs: seq<File>, gs: seq<File>, hs: seq<File>)
    requires Covers(gs, fs) && Covers(hs, gs)
    ensures Covers(hs, fs)
  {
    hide Sectors;
    forall i | 0 <= i < |fs| ensures HasSectors(hs, fs[i]) {
      assert HasSectors(gs, fs[i]);
      var j :| 0 <= j < |gs| && Sectors(gs[j]) == Sectors(fs[i]);
      assert HasSectors(hs, gs[j]);
      var k :| 0 <= k < |hs| && Sectors(hs[k]) == Sectors(gs[j]);
      HasAt(hs, k, fs[i]);
    }
  }

  lemma FlushAllData(v: Vol)
    requires Steady(v) && |Linked(v.files)| <= MAX_ENTRIES && Clean(v.files)
    ensures WfVol(v) && WfVol(UpdateDirectory(v)) && DataKept(v.disk, SyncVol(UpdateDirectory(v)).disk, v.files)
  {
    SteadyWf(v);
    hide Steady, Linked, SyncVol, WfVol, UpdateDirectory, DataKept, Covers, CleanedUpTo, DirBytes;
    FlushAllKeeps(v);
    UpdateKeeps(v);
    UpdateData(v);
    var u := UpdateDirectory(v);
    UpdatedCovers(v, u);
    SyncVolData(u);
    KeptNext(v.disk, u.disk, SyncVol(u).disk, v.files, u.files);
  }

  // ----- each operation

  lemma InsertCovers(fs: seq<File>, k: nat, f: File)
    requires WfFiles(fs) && WfFile(f) && k <= |fs|
    ensures WfFiles(InsertAt(fs, k, f)) && Covers(InsertAt(fs, k, f), fs)
  {
    hide Sectors, InsertAt;
    var gs := InsertAt(fs, k, f);
    forall i | 0 <= i < |fs| ensures HasSectors(gs, fs[i]) {
      HasAt(gs, if i < k then i else i + 1, fs[i]);
    }
  }

  lemma CreateData(v: Vol, path: seq<byte>, table: seq<Chain>)
    requires Inv(v) && |Linked(v.files)| < MAX_ENTRIES && |table| == MAX_FILE_CHAINS && |path| <= NAME_LEN
    ensures DataKept(v.disk, FileCreate(v, path, table).0.disk, v.files)
  {
    SteadyOf(v);
    hide Inv, Steady, Linked, Flush, FirstFree, NewFile, FileModel.Create, Position, Joined, Added, WfVol, DataKept,
      Covers, WfFile, SyncAt, UpdateDirectory;
    if FirstFree(v.disk, 0) == -1 {
      KeptSame(v.disk, v.disk, v.files);
    } else {
      JoinedSteady(v, path, table);
      JoinedFiles(v, path, table);
      var u := Joined(v, path, table).value;
      var f := FileModel.Create(v.disk, NewFile(v.next, path, table)).value.1;
      var k := Position(v.files, Name(f));
      JoinedData(v, path, table);
      AddedLinked(v.files, k, f);
      CleanHere(u.files, k);
      FlushKeeps(u, k);
      FlushData(u, k);
      InsertCovers(v.files, k, f);
      KeptNext(v.disk, u.disk, Flush(u, k).disk, v.files, u.files);
    }
  }

  lemma CleanHere(fs: seq<File>, k: nat)
    requires Clean(fs)
    ensures forall j :: 0 <= j < |fs| && j != k ==> !fs[j].dirty
  {
  }

  lemma JoinedData(v: Vol, path: seq<byte>, table: seq<Chain>)
    requires Inv(v) && |table| == MAX_FILE_CHAINS && |path| <= NAME_LEN && FirstFree(v.disk, 0) != -1
    ensures WfVol(v) && Joined(v, path, table).Some? && DataKept(v.disk, Joined(v, path, table).value.disk, v.files)
  {
    hide Inv, Joined, OnlyWrites, DataKept, Allocated, Used, FirstFree, NewFile;
    var t := JoinedDevice(v, path, table);
    OwnedIn(v);
    DirectoryOnly(v.disk, Joined(v, path, table).value.disk, v.files, t);
  }

  lemma JoinedDevice(v: Vol, path: seq<byte>, table: seq<Chain>) returns (t: nat)
    requires Inv(v) && |table| == MAX_FILE_CHAINS && |path| <= NAME_LEN && FirstFree(v.disk, 0) != -1
    ensures WfVol(v) && Joined(v, path, table).Some?
    ensures t < |v.disk.dev| && !Used(v.disk.vol, t) && OnlyWrites(v.disk, Joined(v, path, table).value.disk, [t, VOL_HDR_SECTOR])
  {
    SteadyOf(v);
    CreatedFile(v, path, table);
    SteadyWf(v);
    hide Walk, Used, SecCount, AllOwned, Apart, Exact, EntriesOk, UniqueInodes, Sorted, NewFile, FileModel.Create,
      Position, Linked, DirBytes, Allocate, OnlyWrites;
    t := FirstFree(v.disk, 0);
  }

  lemma DirectoryOnly(d: Disk, d': Disk, fs: seq<File>, t: nat)
    requires Allocated(d, fs) && WfFiles(fs) && t < |d.dev| && !Used(d.vol, t) && OnlyWrites(d, d', [t, VOL_HDR_SECTOR])
    ensures DataKept(d, d', fs)
  {
    hide Walk, Used, SecCount, AllOwned, Apart, Exact, Sectors, Allocated, OnlyWrites;
    SameSize(d, d', [t, VOL_HDR_SECTOR]);
    forall k, s | 0 <= k < |fs| && s in Sectors(fs[k]) && 0 <= s < |d.dev| ensures d'.dev[s] == d.dev[s] {
      DirIsNoData(d, fs, k, k, s);
      NotWritten(d, d', [t, VOL_HDR_SECTOR], s);
    }
  }

  lemma MovedCovers(fs: seq<File>, i: nat, k: nat, g: File)
    requires WfFiles(fs) && WfFile(g) && i < |fs| && k <= |fs| - 1 && Sectors(g) == Sectors(fs[i])
    ensures WfFiles(InsertAt(RemoveAt(fs, i), k, g)) && Covers(InsertAt(RemoveAt(fs, i), k, g), fs)
  {
    hide Sectors, InsertAt, RemoveAt;
    var rest := RemoveAt(fs, i);
    var gs := InsertAt(rest, k, g);
    forall a | 0 <= a < |fs| ensures HasSectors(gs, fs[a]) {
      var b := Before(i, a);
      HasAt(gs, if a == i then k else if b < k then b else b + 1, fs[a]);
    }
  }

  lemma RenameData(v: Vol, i: nat, path: seq<byte>)
    requires Inv(v) && i < |v.files| && |path| <= NAME_LEN
    ensures DataKept(v.disk, FileRename(v, i, path).disk, v.files)
  {
    SteadyOf(v);
    MovedSteady(v, i, path);
    FileEntry(v, i);
    RenamedFile(v.files[i], path);
    hide Inv, Steady, Linked, Flush, Position, WfVol, DataKept, Covers, SyncAt, UpdateDirectory, TiName, EncodeChains,
      PutName;
    var k := Position(RemoveAt(v.files, i), TiName(path));
    var u := Moved(v, i, path);
    RenamedLinked(v.files, i, k, Renamed(v.files[i], path));
    FlushKeeps(u, k);
    FlushData(u, k);
    MovedCovers(v.files, i, k, Renamed(v.files[i], path));
    KeptSame(v.disk, u.disk, v.files);
    KeptNext(v.disk, u.disk, Flush(u, k).disk, v.files, u.files);
  }

  /** The files that unlink leaves in the list. */
  function Remaining(v: Vol, path: seq<byte>): seq<File> {
    var i := Find(v.files, path);
    if i != -1 && v.files[i].refs == 0 then RemoveAt(v.files, i) else v.files
  }

  lemma UnlinkData(v: Vol, path: seq<byte>)
    requires Inv(v)
    ensures DataKept(v.disk, FileUnlink(v, path).0.disk, Remaining(v, path))
  {
    SteadyOf(v);
    hide Inv, Steady, Linked, SyncVol, UpdateDirectory, WfVol, Clean, FreeFile, DataKept, Covers;
    var i := Find(v.files, path);
    if i == -1 {
      KeptSame(v.disk, v.disk, v.files);
    } else if v.files[i].refs == 0 {
      RemovedSteady(v, i);
      LinkedFewer(v.files, i);
      var u := v.(disk := FreeFile(v.disk, v.files[i]), files := RemoveAt(v.files, i));
      FlushAllKeeps(u);
      FlushAllData(u);
      CoversSelf(u.files, u.files);
      KeptSame(v.disk, u.disk, u.files);
      KeptNext(v.disk, u.disk, SyncVol(UpdateDirectory(u)).disk, u.files, u.files);
    } else {
      var g := v.files[i].(unlinked := true);
      RecountSteady(v, i, g);
      LinkedNoMore(v.files, i, g);
      CleanOne(v.files, i);
      RecountClean(v.files, i, g);
      var u := v.(files := v.files[i := g]);
      FlushAllKeeps(u);
      FlushAllData(u);
      RecountCovers(v.files, i, g);
      KeptSame(v.disk, u.disk, v.files);
      KeptNext(v.disk, u.disk, SyncVol(UpdateDirectory(u)).disk, v.files, u.files);
    }
  }

  lemma CleanOne(fs: seq<File>, i: nat)
    requires Clean(fs) && i < |fs|
    ensures !fs[i].dirty
  {
  }

  lemma RecountCovers(fs: seq<File>, i: nat, g: File)
    requires WfFiles(fs) && i < |fs| && SameOnDisk(fs[i], g)
    ensures WfFiles(fs[i := g]) && Covers(fs[i := g], fs)
  {
    hide Walk;
    CoversSelf(fs, fs[i := g]);
  }

  /** A write to one file, for the data of all others. */
  lemma WriteData(v: Vol, i: nat, buff: seq<byte>, off: nat)
    requires Inv(v) && i < |v.files| && MayWrite(v, i, off, |buff|)
    ensures DataKept(v.disk, FileWrite(v, i, buff, off).0.disk, RemoveAt(v.files, i))
  {
    OwnedIn(v);
    hide Inv, MayWrite, FileWrite, Allocated, Gained, OnlyWrites, DataKept, Sectors;
    var news := WriteOnly(v, i, buff, off);
    OthersKept(v.disk, FileWrite(v, i, buff, off).0.disk, v.files, i, news);
  }

  lemma OthersKept(d: Disk, d': Disk, fs: seq<File>, i: nat, news: seq<int>)
    requires Allocated(d, fs) && i < |fs| && WfDisk(d') && |d'.dev| == |d.dev| && Gained(d, d', news)
    requires OnlyWrites(d, d', Sectors(fs[i]) + news + [fs[i].dir, VOL_HDR_SECTOR])
    ensures DataKept(d, d', RemoveAt(fs, i))
  {
    hide Walk, Sectors, Gained, OnlyWrites, AllOwned, Apart, Exact;
    var gs := RemoveAt(fs, i);
    forall k, s | 0 <= k < |gs| && s in Sectors(gs[k]) && 0 <= s < |d.dev| ensures d'.dev[s] == d.dev[s] {
      OthersApart(d, d', fs, i, After(i, k), news, s);
      NotWritten(d, d', Sectors(fs[i]) + news + [fs[i].dir, VOL_HDR_SECTOR], s);
    }
  }

  lemma SameSize(d: Disk, d': Disk, ss: seq<int>)
    requires OnlyWrites(d, d', ss)
    ensures |d'.dev| == |d.dev|
  {
  }

  lemma NotWritten(d: Disk, d': Disk, ss: seq<int>, s: int)
    requires OnlyWrites(d, d', ss) && 0 <= s < |d.dev| && s !in ss
    ensures |d'.dev| == |d.dev| && d'.dev[s] == d.dev[s]
  {
  }

  lemma WriteOnly(v: Vol, i: nat, buff: seq<byte>, off: nat) returns (news: seq<int>)
    requires Inv(v) && i < |v.files| && MayWrite(v, i, off, |buff|)
    ensures WfDisk(v.disk) && WfFiles(v.files)
    ensures var d' := FileWrite(v, i, buff, off).0.disk;
            && WfDisk(d') && |d'.dev| == |v.disk.dev| && Gained(v.disk, d', news)
            && OnlyWrites(v.disk, d', Sectors(v.files[i]) + news + [v.files[i].dir, VOL_HDR_SECTOR])
  {
    OwnedIn(v);
    hide Inv, Steady, Allocated, AllOwned, WfFiles, FileModel.Write, CanWrite, Regular, Walk, Sectors, LoopBytes,
      Clip, Room, SameIdentity, EncodeChains,
      SecCount, Sound;
    news := WriteLaw(v.disk, v.files[i], buff, off);
    var (d', f', _) := FileModel.Write(v.disk, v.files[i], buff, off);
    OwnedBasics(d', f');
  }

  lemma OthersApart(d: Disk, d': Disk, fs: seq<File>, i: nat, k: nat, news: seq<int>, s: int)
    requires Allocated(d, fs) && i < |fs| && k < |fs| && i != k && WfDisk(d') && Gained(d, d', news) && s in Sectors(fs[k])
    ensures s !in Sectors(fs[i]) + news + [fs[i].dir, VOL_HDR_SECTOR]
  {
    hide Walk, Used, SecCount, Exact, Gained;
    DirIsNoData(d, fs, i, k, s);
    assert Owned(d, fs[k]);
    NewsForeign(d, d', fs[k], news);
    assert s in Owns(fs[k]);
  }

  // ----- runs

  /** A file's length, and how many bytes of the last sector its entry says are in use. */
  datatype Extent = Extent(length: int, eof: byte)

  predicate Extended(f: File, size: Extent)
    requires WfFile(f)
  {
    f.length == size.length && f.hdr[EOF_AT] == size.eof
  }

  predicate SameExtent(g: File, f: File)
    requires WfFile(g) && WfFile(f)
  {
    g.length == f.length && g.hdr[EOF_AT] == f.hdr[EOF_AT]
  }

  /** File x is in the list, holds these bytes in its sectors and has this size. */
  ghost predicate Shows(v: Vol, x: nat, c: seq<byte>, size: Extent) {
    WfDisk(v.disk) && WfFiles(v.files) && AllOwned(v.disk, v.files) && exists i :: ShowsAt(v, i, x, c, size)
  }

  ghost predicate ShowsAt(v: Vol, i: int, x: nat, c: seq<byte>, size: Extent)
    requires WfDisk(v.disk) && WfFiles(v.files) && AllOwned(v.disk, v.files)
  {
    && 0 <= i < |v.files| && v.files[i].inode == x && Extended(v.files[i], size)
    && InRange(v.disk, Sectors(v.files[i])) && Content(v.disk, Sectors(v.files[i])) == c
  }

  /** The same file at another place of the list, with its data kept. */
  lemma Carried(v: Vol, v': Vol, fs: seq<File>, a: nat, i: nat, j: nat, x: nat, c: seq<byte>, size: Extent)
    requires Inv(v) && Inv(v') && DataKept(v.disk, v'.disk, fs) && a < |fs| && i < |v.files| && j < |v'.files|
    requires WfFile(v.files[i]) && WfFile(v'.files[j]) && Sectors(fs[a]) == Sectors(v.files[i]) == Sectors(v'.files[j])
    requires v'.files[j].inode == v.files[i].inode && SameExtent(v'.files[j], v.files[i])
    requires WfDisk(v.disk) && WfFiles(v.files) && AllOwned(v.disk, v.files) && ShowsAt(v, i, x, c, size)
    ensures Shows(v', x, c, size)
  {
    hide Inv, Walk, Content, Sectors, SecCount, Used, AllOwned, Allocated, Owned, Sound;
    OwnedIn(v');
    OwnedOne(v', j);
    SoundBasics(v'.disk, v'.files[j]);
    var ss := Sectors(v.files[i]);
    forall q | 0 <= q < |ss| ensures v.disk.dev[ss[q]] == v'.disk.dev[ss[q]] {
      assert ss[q] in Sectors(fs[a]);
    }
    ContentSame(v.disk, v'.disk, ss);
    assert ShowsAt(v', j, x, c, size);
  }

  /** Position in the list after a step of a file that stays: its data is where it was. */
  lemma StepCarries(s: Fs, e: Event, i: nat, x: nat, c: seq<byte>, size: Extent)
    requires FsInv(s) && Allowed(s, e) && Inv(s.vol)
    requires WfDisk(s.vol.disk) && WfFiles(s.vol.files) && AllOwned(s.vol.disk, s.vol.files)
    requires ShowsAt(s.vol, i, x, c, size) && !Leaves(s, e, i)
    requires e.Write? ==> Held(s, e.h) != i
    ensures Shows(Step(s, e).vol, x, c, size)
  {
    hide FsInv, Inv, FsCreate, FsRelease, FsRename, FsUnlink, FsWrite, FsOpen, Shows, ShowsAt, Held, MayWrite, Linked,
      AllOwned;
    match e
    case Create(path, table) => CreateCarries(s, e, i, x, c, size);
    case Open(path) => OpenCarries(s, path, i, x, c, size);
    case Release(h) => ReleaseCarries(s, h, i, x, c, size);
    case Rename(from, to) => RenameCarries(s, from, to, i, x, c, size);
    case Unlink(path) => UnlinkCarries(s, path, i, x, c, size);
    case Write(h, buff, off) => WriteCarries(s, e, i, x, c, size);
  }

  ghost predicate Ready(s: Fs, i: int, x: nat, c: seq<byte>, size: Extent) {
    && FsInv(s) && Inv(s.vol) && WfDisk(s.vol.disk) && WfFiles(s.vol.files) && AllOwned(s.vol.disk, s.vol.files)
    && ShowsAt(s.vol, i, x, c, size)
  }

  lemma InvOfStep(s: Fs)
    requires FsInv(s)
    ensures Inv(s.vol)
  {
  }

  lemma Start(s: Fs, t: Fs, i: int, x: nat, c: seq<byte>, size: Extent)
    requires Ready(s, i, x, c, size) && FsInv(t)
    ensures 0 <= i < |s.vol.files| && WfFile(s.vol.files[i]) && Inv(s.vol) && Inv(t.vol) && WfFiles(t.vol.files)
    ensures WfFiles(s.vol.files)
  {
    InvOfStep(t);
    OwnedIn(t.vol);
  }

  lemma CreateCarries(s: Fs, e: Event, i: nat, x: nat, c: seq<byte>, size: Extent)
    requires e.Create? && Ready(s, i, x, c, size) && Allowed(s, e)
    ensures Shows(FsCreate(s, e.path, e.table).vol, x, c, size)
  {
    hide FsInv, Inv, FileCreate, Sectors, Content, DataKept, Linked, InsertAt, ShowsAt, AllOwned, Shows;
    CreateKeeps(s, e.path, e.table);
    var k, f := CreateFiles(s, e);
    var t := FsCreate(s, e.path, e.table);
    Start(s, t, i, x, c, size);
    CreateData(s.vol, e.path, e.table);
    KeptSame(s.vol.disk, s.vol.disk, s.vol.files);
    Carried(s.vol, t.vol, s.vol.files, i, i, if Creates(s, e) && i >= k then i + 1 else i, x, c, size);
  }

  lemma OpenFiles(s: Fs, path: seq<byte>)
    requires FsInv(s)
    ensures var t := FsOpen(s, path);
            && t.vol.disk == s.vol.disk && |t.vol.files| == |s.vol.files|
            && forall i :: 0 <= i < |s.vol.files| ==> SameData(t.vol.files[i], s.vol.files[i])
  {
    hide Inv, PoolOk, AllRefsOk, HandlesLive;
  }

  /** Counters and marks aside, the same file. */
  ghost predicate SameData(g: File, f: File) {
    g.inode == f.inode && g.length == f.length && g.hdr == f.hdr && g.table == f.table && g.count == f.count
  }

  lemma SameDataSectors(g: File, f: File)
    requires SameData(g, f) && WfFile(g) && WfFile(f)
    ensures Sectors(g) == Sectors(f)
  {
    hide Walk;
  }

  lemma OpenCarries(s: Fs, path: seq<byte>, i: nat, x: nat, c: seq<byte>, size: Extent)
    requires Ready(s, i, x, c, size)
    ensures Shows(FsOpen(s, path).vol, x, c, size)
  {
    hide FsInv, Inv, Sectors, Content, DataKept, FsOpen, ShowsAt, AllOwned, Shows;
    OpenKeeps(s, path);
    OpenFiles(s, path);
    var t := FsOpen(s, path);
    Start(s, t, i, x, c, size);
    KeptSame(s.vol.disk, t.vol.disk, s.vol.files);
    SameDataSectors(t.vol.files[i], s.vol.files[i]);
    Carried(s.vol, t.vol, s.vol.files, i, i, i, x, c, size);
  }

  lemma ClosedPlace(fs: seq<File>, r: nat, i: nat) returns (j: nat)
    requires r < |fs| && i < |fs| && fs[r].refs > 0 && !(i == r && fs[r].unlinked && fs[r].refs == 1)
    ensures j < |Closed(fs, r)| && SameData(Closed(fs, r)[j], fs[i])
  {
    j := if fs[r].unlinked && fs[r].refs == 1 then Before(r, i) else i;
  }

  lemma ReleaseCarries(s: Fs, h: nat, i: nat, x: nat, c: seq<byte>, size: Extent)
    requires Ready(s, i, x, c, size) && h < HANDLES && s.file[h].Some? && !Leaves(s, Release(h), i)
    ensures Shows(FsRelease(s, h).vol, x, c, size)
  {
    hide FsInv, Inv, Sectors, Content, DataKept, FsRelease, ShowsAt, AllOwned, Closed, Shows;
    ReleaseKeeps(s, h);
    ReleaseFiles(s, h);
    ReleaseDevice(s, h);
    var t := FsRelease(s, h);
    Start(s, t, i, x, c, size);
    KeptSame(s.vol.disk, t.vol.disk, s.vol.files);
    var j := ClosedPlace(s.vol.files, Held(s, h), i);
    SameDataSectors(t.vol.files[j], s.vol.files[i]);
    Carried(s.vol, t.vol, s.vol.files, i, i, j, x, c, size);
  }

  lemma ReleaseDevice(s: Fs, h: nat)
    requires FsInv(s) && h < HANDLES && s.file[h].Some?
    ensures FsRelease(s, h).vol.disk.dev == s.vol.disk.dev
  {
    hide Inv, PoolOk, AllRefsOk, HandlesLive;
    HeldRefs(s, h);
  }

  lemma RenameCarries(s: Fs, from: seq<byte>, to: seq<byte>, i: nat, x: nat, c: seq<byte>, size: Extent)
    requires Ready(s, i, x, c, size) && |to| <= NAME_LEN
    ensures Shows(FsRename(s, from, to).vol, x, c, size)
  {
    hide FsInv, Inv, Sectors, Content, DataKept, InsertAt, RemoveAt, FsRename, ShowsAt, AllOwned, Shows;
    var r := Find(s.vol.files, from);
    var t := FsRename(s, from, to);
    RenameKeeps(s, from, to);
    Start(s, t, i, x, c, size);
    if r == -1 {
      var k, g := RenameFiles(s, from, to);
      KeptSame(s.vol.disk, t.vol.disk, s.vol.files);
      Carried(s.vol, t.vol, s.vol.files, i, i, i, x, c, size);
    } else {
      var k, g := RenamedPlace(s, from, to);
      var b := Before(r, i);
      Carried(s.vol, t.vol, s.vol.files, i, i, if i == r then k else if b < k then b else b + 1, x, c, size);
    }
  }

  lemma RenamedPlace(s: Fs, from: seq<byte>, to: seq<byte>) returns (k: nat, g: File)
    requires FsInv(s) && |to| <= NAME_LEN && Find(s.vol.files, from) != -1
    ensures WfFiles(s.vol.files) && DataKept(s.vol.disk, FsRename(s, from, to).vol.disk, s.vol.files)
    ensures var r := Find(s.vol.files, from);
            && k <= |s.vol.files| - 1 && WfFile(g) && WfFile(s.vol.files[r])
            && g.inode == s.vol.files[r].inode && Sectors(g) == Sectors(s.vol.files[r]) && SameExtent(g, s.vol.files[r])
            && FsRename(s, from, to).vol.files == InsertAt(RemoveAt(s.vol.files, r), k, g)
  {
    var r := Find(s.vol.files, from);
    OwnedIn(s.vol);
    LeakKeeps(s.vol, r);
    var v := Leaked(s.vol, r);
    hide Inv, PoolOk, AllRefsOk, HandlesLive, Position, FileRename, PutName, Walk, Added, DataKept;
    RenameLaw(v, r, to);
    RenameData(v, r, to);
    OwnedIn(v);
    LeakedCovers(s.vol, r);
    KeptSame(s.vol.disk, v.disk, s.vol.files);
    KeptNext(s.vol.disk, v.disk, FileRename(v, r, to).disk, s.vol.files, v.files);
    g := Renamed(v.files[r], to).(dirty := false);
    k := Position(RemoveAt(v.files, r), Name(g));
    assert RemoveAt(v.files, r) == RemoveAt(s.vol.files, r);
    AddedIs(RemoveAt(v.files, r), g);
  }

  lemma AddedIs(fs: seq<File>, f: File)
    requires WfFiles(fs) && WfFile(f)
    ensures Added(fs, f) == InsertAt(fs, Position(fs, Name(f)), f)
  {
    hide Position;
  }

  lemma LeakedCovers(v: Vol, i: nat)
    requires WfFiles(v.files) && i < |v.files|
    ensures Covers(Leaked(v, i).files, v.files)
  {
    hide Walk;
    CoversSelf(v.files, Leaked(v, i).files);
  }

  lemma RemainingPlace(fs: seq<File>, gs: seq<File>, v: Vol, path: seq<byte>, i: nat) returns (j: nat)
    requires fs == v.files && i < |fs| && !(Find(fs, path) == i && fs[i].refs == 0)
    requires var r := Find(fs, path);
             gs == if r == -1 then fs else if fs[r].refs == 0 then RemoveAt(fs, r) else fs[r := fs[r].(unlinked := true)]
    ensures j < |gs| && SameData(gs[j], fs[i]) && j < |Remaining(v, path)| && Remaining(v, path)[j] == fs[i]
  {
    var r := Find(fs, path);
    j := if r != -1 && fs[r].refs == 0 then Before(r, i) else i;
  }

  lemma UnlinkCarries(s: Fs, path: seq<byte>, i: nat, x: nat, c: seq<byte>, size: Extent)
    requires Ready(s, i, x, c, size)
    requires !(Find(s.vol.files, path) == i && i < |s.vol.files| && s.vol.files[i].refs == 0)
    ensures Shows(FsUnlink(s, path).vol, x, c, size)
  {
    hide FsInv, Inv, Sectors, Content, DataKept, FileUnlink, ShowsAt, AllOwned, Remaining, Shows;
    UnlinkKeeps(s, path);
    UnlinkFiles(s, path);
    UnlinkData(s.vol, path);
    var t := FsUnlink(s, path);
    Start(s, t, i, x, c, size);
    var j := RemainingPlace(s.vol.files, t.vol.files, s.vol, path, i);
    SameDataSectors(t.vol.files[j], s.vol.files[i]);
    Carried(s.vol, t.vol, Remaining(s.vol, path), j, i, j, x, c, size);
  }

  lemma WriteCarries(s: Fs, e: Event, i: nat, x: nat, c: seq<byte>, size: Extent)
    requires e.Write? && Ready(s, i, x, c, size) && Allowed(s, e) && Held(s, e.h) != i
    ensures Shows(FsWrite(s, e.h, e.buff, e.off).0.vol, x, c, size)
  {
    hide FsInv, Inv, Sectors, Content, DataKept, FileWrite, ShowsAt, AllOwned, MayWrite, RemoveAt, Shows;
    WriteKeeps(s, e.h, e.buff, e.off);
    var r := Held(s, e.h);
    WriteData(s.vol, r, e.buff, e.off);
    var t := FsWrite(s, e.h, e.buff, e.off).0;
    Start(s, t, i, x, c, size);
    Carried(s.vol, t.vol, RemoveAt(s.vol.files, r), Before(r, i), i, i, x, c, size);
  }

  /** A write through a handle open on x. */
  ghost predicate WritesTo(s: Fs, e: Event, x: nat) {
    e.Write? && e.h < |s.file| && s.file[e.h] == Some(x)
  }

  /** The run never writes through a handle open on x. */
  ghost predicate NeverWrites(s: Fs, es: seq<Event>, x: nat)
    requires FsInv(s) && Permitted(s, es)
    decreases |es|
  {
    es == []
    || (&& !WritesTo(s, es[0], x)
        && (StepKeeps(s, es[0]); NeverWrites(Step(s, es[0]), es[1..], x)))
  }

  lemma OneStepShows(s: Fs, e: Event, x: nat, c: seq<byte>, size: Extent)
    requires FsInv(s) && Allowed(s, e) && Shows(s.vol, x, c, size)
    requires !WritesTo(s, e, x)
    ensures !Live(Step(s, e).vol.files, x) || Shows(Step(s, e).vol, x, c, size)
  {
    InvOfStep(s);
    OwnedIn(s.vol);
    hide FsInv, Inv, Step, ShowsAt, AllOwned, Leaves, Creates;
    var i: int :| ShowsAt(s.vol, i, x, c, size);
    ShowsIs(s.vol, i, x, c, size);
    StepLive(s, e, x);
    InodeBelow(s, i);
    if !Leaves(s, e, i) {
      StepCarries(s, e, i, x, c, size);
    }
  }

  lemma ShowsIs(v: Vol, i: int, x: nat, c: seq<byte>, size: Extent)
    requires WfDisk(v.disk) && WfFiles(v.files) && AllOwned(v.disk, v.files) && ShowsAt(v, i, x, c, size)
    ensures 0 <= i < |v.files| && v.files[i].inode == x
  {
  }

  /** Through any run, whatever happens to other files, a file that is not written to and is
      still there holds the same bytes and has the same length. */
  lemma {:induction false} OnlyWritesChange(s: Fs, es: seq<Event>, x: nat, c: seq<byte>, size: Extent)
    requires FsInv(s) && Permitted(s, es) && x < s.vol.next && Shows(s.vol, x, c, size) && NeverWrites(s, es, x)
    ensures Live(RunFs(s, es).vol.files, x) ==> Shows(RunFs(s, es).vol, x, c, size)
    decreases |es|
  {
    hide FsInv, Step, Allowed, Shows, Live, Creates, Leaves;
    if es != [] {
      StepKeeps(s, es[0]);
      OneStepShows(s, es[0], x, c, size);
      StepLive(s, es[0], x);
      if Live(Step(s, es[0]).vol.files, x) {
        OnlyWritesChange(Step(s, es[0]), es[1..], x, c, size);
      } else {
        GoneForGood(Step(s, es[0]), es[1..], x);
      }
    }
  }
}
