/** The DiskVolume object: its list of files, its directory sector, and its operations, each tied
    to the volume as a value. */
module DiskVolumes {
  import opened Bytes
  import opened SectorMap
  import opened Chains
  import opened FileModel
  import opened FileLaws
  import opened Ownership
  import opened Directory
  import opened VolumeModel
  import opened VolumeOps
  import opened DiskFiles

  ghost function Values(fs: seq<DiskFile>): (vs: seq<File>)
    reads fs
    ensures |vs| == |fs| && forall i :: 0 <= i < |fs| ==> vs[i] == fs[i].V()
  {
    if fs == [] then [] else Values(fs[..|fs| - 1]) + [fs[|fs| - 1].V()]
  }

  ghost predicate Different(fs: seq<DiskFile>) {
    forall i, j :: 0 <= i < j < |fs| ==> fs[i] != fs[j]
  }

  class DiskVolume {
    const sectors: DiskSector
    var dirHdr: seq<byte>              // the 128 pairs of bytes of the directory sector
    var dirNeedsWrite: bool
    var files: seq<DiskFile>
    var fileCount: nat
    var lastInode: nat

    ghost function M(): Vol
      reads this, files, sectors, sectors.volHdr, sectors.device
    {
      Vol(sectors.Model(), dirHdr, dirNeedsWrite, Values(files), lastInode)
    }

    ghost predicate Valid()
      reads this, files, sectors, sectors.volHdr, sectors.device
    {
      && sectors.Valid() && |dirHdr| == SECTOR && Different(files) && fileCount == |files|
      && forall i :: 0 <= i < |files| ==> files[i].sectorMap == sectors && WfFile(files[i].V())
    }

    constructor (sectors: DiskSector, dirHdr: seq<byte>, next: nat)
      requires sectors.Valid() && |dirHdr| == SECTOR
      ensures Valid() && this.sectors == sectors
      ensures M() == Vol(sectors.Model(), dirHdr, false, [], next)
    {
      this.sectors, this.dirHdr, dirNeedsWrite := sectors, dirHdr, false;
      files, fileCount, lastInode := [], 0, next;
    }

    /** The file with this path, unlinked or not. */
    method FileAccess(path: seq<byte>) returns (file: DiskFile?, ghost i: int)
      requires Valid()
      ensures i == Find(M().files, path)
      ensures if i == -1 then file == null else file == files[i]
    {
      for k := 0 to |files|
        invariant forall j :: 0 <= j < k ==> M().files[j].osname != path
      {
        if files[k].osname == path {
          FindIs(M().files, path, k);
          return files[k], k;
        }
      }
      return null, -1;
    }

    method FileOpen(path: seq<byte>) returns (file: DiskFile?, ghost i: int)
      requires Valid() && Inv(M())
      modifies files
      ensures Valid() && (M(), Opened(file)) == VolumeOps.FileOpen(old(M()), path) && files == old(files)
      ensures i == Find(old(M()).files, path)
      ensures if i == -1 then file == null else file == files[i] && M().files == old(M()).files[i := M().files[i]]
    {
      hide Inv, Values;
      file, i := FileAccess(path);
      if file != null {
        ghost var was := M();
        file.IncRefCount();
        assert M().files == was.files[i := was.files[i].(refs := was.files[i].refs + 1)];
      }
    }

    // ----- the list

    method AddFileToList(file: DiskFile)
      requires Valid() && file.sectorMap == sectors && WfFile(file.V()) && file !in files
      modifies this`files, this`fileCount
      ensures Valid() && M() == old(M()).(files := Added(old(M()).files, file.V()))
      ensures files == InsertFile(old(files), Position(old(M()).files, Name(file.V())), file)
    {
      hide Less, Values, Position;
      ghost var was, vs := files, Values(files);
      var at := |files|;
      for k := 0 to |files|
        invariant files == was && at == |files|
        invariant forall j :: 0 <= j < k ==> !Less(Name(file.V()), Name(vs[j]))
      {
        if Less(file.filehdr[..NAME_LEN], files[k].filehdr[..NAME_LEN]) {
          at := k;
          break;
        }
      }
      PositionIs(vs, Name(file.V()), at);
      files := InsertFile(files, at, file);
      fileCount := fileCount + 1;
      ValuesInsert(was, at, file);
      DifferentInsert(was, at, file);
    }

    method RemoveFileFromList(file: DiskFile, ghost i: nat)
      requires Valid() && i < |files| && files[i] == file
      modifies this`files, this`fileCount
      ensures Valid() && M() == old(M()).(files := RemoveAt(old(M()).files, i))
      ensures files == WithoutFile(old(files), i) && file !in files
    {
      hide Values, Different, WithoutFile, RemoveAt;
      ghost var was := files;
      var newFiles := OthersOf(files, file, i);
      files := newFiles;
      fileCount := fileCount - 1;
      ValuesRemove(was, i);
      DifferentRemove(was, i);
    }

    /** The list rebuilt without the file. */
    static method OthersOf(files: seq<DiskFile>, file: DiskFile, ghost i: nat) returns (newFiles: seq<DiskFile>)
      requires Different(files) && i < |files| && files[i] == file
      ensures newFiles == WithoutFile(files, i)
    {
      newFiles := [];
      for k := 0 to |files|
        invariant newFiles == if k <= i then files[..k] else files[..i] + files[i + 1..k]
      {
        if files[k] != file {
          newFiles := newFiles + [files[k]];
        }
      }
    }

    // ----- the directory and the flush

    method SyncOne(file: DiskFile, ghost i: nat)
      requires Valid() && WfVol(M()) && i < |files| && files[i] == file
      modifies file`needsWrite, sectors`bitmapChanged, sectors.device
      ensures Valid() && M() == SyncAt(old(M()), i)
    {
      hide SyncFile;
      ghost var was := M();
      file.Sync();
      assert M().files == was.files[i := SyncFile(was.disk, was.files[i]).1];
    }

    method UpdateDirectory()
      requires Valid() && Steady(M()) && |Linked(M().files)| <= MAX_ENTRIES
      modifies this`dirHdr, this`dirNeedsWrite, files, sectors`bitmapChanged, sectors.device
      ensures Valid() && files == old(files) && WfVol(old(M())) && M() == VolumeModel.UpdateDirectory(old(M()))
    {
      hide Steady, Linked, SyncedUpTo, SyncAt, WfVol, ListOne, ListedUpTo, SyncFile, Values, Different,
        VolumeModel.UpdateDirectory;
      ghost var v := M();
      SteadyWf(v);
      dirHdr := seq(SECTOR, _ => 0);
      NothingListed(v);
      var entry := 0;
      for i := 0 to |files|
        invariant Valid() && files == old(files) && |files| == |v.files| && ListedUpTo(v, i, entry, M())
      {
        ListedFile(v, i, entry, M());
        if files[i].unlinked {
          SkipUnlinked(v, i, entry, M());
        } else {
          ListLinked(v, i, entry, M());
          ListFile(files[i], i, entry);
          entry := entry + 1;
        }
      }
      ghost var w := M();
      dirNeedsWrite := true;
      AllListed(v, entry, w, M());
    }

    method ListFile(file: DiskFile, ghost i: nat, entry: nat)
      requires Valid() && WfVol(M()) && i < |files| && files[i] == file && entry < MAX_ENTRIES
      modifies this`dirHdr, file`needsWrite, sectors`bitmapChanged, sectors.device
      ensures Valid() && M() == ListOne(old(M()), i, entry)
    {
      hide SyncAt, Byte;
      var dir := file.dirSector;
      dirHdr := dirHdr[2 * entry := Byte(dir / 256)][2 * entry + 1 := Byte(dir)];
      SyncOne(file, i);
    }

    method Sync()
      requires Valid() && WfVol(M())
      modifies this`dirNeedsWrite, sectors`bitmapChanged, sectors.device
      ensures Valid() && M() == SyncVol(old(M()))
    {
      if dirNeedsWrite {
        var n := sectors.Write(DIR_HDR_SECTOR, dirHdr, 0);
        dirNeedsWrite := false;
      }
      sectors.Sync();
    }

    // ----- the operations

    /** Directory, then this file, then the volume. */
    method FlushWith(file: DiskFile, ghost i: nat)
      requires Valid() && Steady(M()) && |Linked(M().files)| <= MAX_ENTRIES && i < |files| && files[i] == file
      requires CleanBut(M().files, i)
      modifies this`dirHdr, this`dirNeedsWrite, files, sectors`bitmapChanged, sectors.device
      ensures Valid() && files == old(files)
      ensures WfVol(old(M())) && WfVol(VolumeModel.UpdateDirectory(old(M()))) && WfVol(SyncAt(VolumeModel.UpdateDirectory(old(M())), i))
      ensures M() == Flush(old(M()), i)
    {
      hide Steady, Linked, SyncAt, SyncVol, WfVol, VolumeModel.UpdateDirectory, Inv, Values;
      assert forall k :: 0 <= k < |files| && k != i ==> !M().files[k].dirty;
      FlushKeeps(M(), i);
      UpdateDirectory();
      SyncOne(file, i);
      Sync();
    }

    method FlushAll()
      requires Valid() && Steady(M()) && |Linked(M().files)| <= MAX_ENTRIES && Clean(M().files)
      modifies this`dirHdr, this`dirNeedsWrite, files, sectors`bitmapChanged, sectors.device
      ensures Valid() && files == old(files)
      ensures WfVol(old(M())) && WfVol(VolumeModel.UpdateDirectory(old(M())))
      ensures M() == SyncVol(VolumeModel.UpdateDirectory(old(M())))
    {
      hide Steady, Linked, SyncVol, WfVol, VolumeModel.UpdateDirectory, Inv, Values, Clean;
      FlushAllKeeps(M());
      UpdateDirectory();
      Sync();
    }

    /** table and dirty are what the fields that the constructor leaves alone happen to hold. */
    method NewOnDisk(path: seq<byte>, table: seq<Chain>, dirty: bool) returns (file: DiskFile, ok: bool)
      requires Valid() && |table| == MAX_FILE_CHAINS && |path| <= NAME_LEN
      modifies this`lastInode, sectors`bitmapChanged, sectors.volHdr, sectors.device
      ensures Valid() && files == old(files) && fresh(file) && file.sectorMap == sectors
      ensures file.inode == old(lastInode)
      ensures WfDisk(old(M()).disk) && WfFile(file.V())
      ensures var r := FileModel.Create(old(M()).disk, NewFile(old(lastInode), path, table));
              && M() == old(M()).(disk := sectors.Model(), next := old(lastInode) + 1)
              && ok == r.Some? && (if ok then r.value == (sectors.Model(), file.V()) else sectors.Model() == old(sectors.Model()))
    {
      hide Values, FirstFree, Mark, TiName, FileModel.Create, WfDisk;
      file := new DiskFile(path, sectors, 0, lastInode, table, dirty);
      lastInode := lastInode + 1;
      DirtyIrrelevant(sectors.Model(), NewFile(old(lastInode), path, table), dirty);
      ok := file.Create();
    }

    method FileCreate(path: seq<byte>, table: seq<Chain>, dirty: bool) returns (file: DiskFile?)
      requires Valid() && Inv(M()) && |Linked(M().files)| < MAX_ENTRIES && |table| == MAX_FILE_CHAINS && |path| <= NAME_LEN
      modifies this, files, sectors`bitmapChanged, sectors.volHdr, sectors.device
      ensures Valid() && (M(), Opened(file)) == VolumeOps.FileCreate(old(M()), path, table)
      ensures file == null ==> files == old(files)
      ensures file != null ==> fresh(file) && Joins(old(files), files, file)
    {
      hide Inv, Steady, Linked, Values, FirstFree, Mark, WfVol, NewFile, Flush, VolumeOps.FileCreate,
        FileModel.Create, Position, CleanBut, Joins,
        Name;
      ghost var v, fs := M(), files;
      SteadyOf(v);
      var f, ok := NewOnDisk(path, table, dirty);
      if !ok {
        CreateFails(v, path, table);
        return null;
      }
      AddFileToList(f);
      ghost var k := Position(v.files, Name(f.V()));
      CreateIs(v, path, table, M(), f.V());
      InsertedFiles(fs, k, f);
      FlushWith(f, k);
      file := f;
    }

    method FileClose(file: DiskFile, ghost i: nat)
      requires Valid() && Inv(M()) && i < |files| && files[i] == file && file.refCount > 0
      modifies this`files, this`fileCount, file`refCount, sectors`bitmapChanged, sectors.volHdr
      ensures Valid() && M() == VolumeOps.FileClose(old(M()), i)
      ensures files == if old(file.unlinked && file.refCount == 1) then WithoutFile(old(files), i) else old(files)
    {
      hide Inv, Values, FreeFile;
      ghost var v := M();
      CanFree(v, i);
      var gone := file.Close();
      assert M().files == v.files[i := file.V()];
      if gone {
        RemoveFileFromList(file, i);
      }
    }

    method FileUnlink(path: seq<byte>) returns (ok: bool)
      requires Valid() && Inv(M())
      modifies this, files, sectors`bitmapChanged, sectors.volHdr, sectors.device
      ensures Valid() && (M(), ok) == VolumeOps.FileUnlink(old(M()), path)
      ensures var i := Find(old(M()).files, path);
              files == if i != -1 && old(M()).files[i].refs == 0 then WithoutFile(old(files), i) else old(files)
    {
      hide Inv, Values, VolumeOps.FileUnlink;
      for k := 0 to |files|
        invariant Valid() && M() == old(M()) && files == old(files)
        invariant forall j :: 0 <= j < k ==> M().files[j].osname != path
      {
        if files[k].osname == path {
          FindIs(M().files, path, k);
          UnlinkThis(path, files[k], k);
          return true;
        }
      }
      NotFound(M(), path);
      ok := false;
    }

    /** The body of fileUnlink's loop for the file found. */
    method UnlinkThis(ghost path: seq<byte>, file: DiskFile, ghost i: nat)
      requires Valid() && Inv(M()) && i < |files| && files[i] == file && Find(M().files, path) == i
      modifies this, files, sectors`bitmapChanged, sectors.volHdr, sectors.device
      ensures Valid() && (M(), true) == VolumeOps.FileUnlink(old(M()), path)
      ensures files == if old(M()).files[i].refs == 0 then WithoutFile(old(files), i) else old(files)
    {
      hide Inv, Values, VolumeOps.FileUnlink, FreeFile, Steady, Linked, SyncVol, VolumeModel.UpdateDirectory, WfVol,
        Clean;
      ghost var v := M();
      CanFree(v, i);
      UnlinkIs(v, path);
      var gone := file.Unlink();
      if gone {
        RemoveFileFromList(file, i);
      } else {
        assert M().files == v.files[i := v.files[i].(unlinked := true)];
      }
      FlushAll();
    }

    /** Out of the list, renamed, and back in its new place. */
    method MoveFile(file: DiskFile, path: seq<byte>, ghost i: nat) returns (ghost k: nat)
      requires Valid() && |path| <= NAME_LEN && i < |files| && files[i] == file
      modifies this`files, this`fileCount, file`osname, file`filehdr, file`needsWrite
      ensures Valid() && SameFiles(old(files), files) && k < |files| && files[k] == file
      ensures forall j :: 0 <= j < |files| ==> files[j] in old(files)
      ensures M() == old(M()).(files := M().files) && MovedTo(old(M()).files, i, path, M().files, k)
    {
      hide Values, PutName, Position, Name, Renamed, Different, SameFiles, InsertFile, WithoutFile;
      ghost var fs := files;
      RemoveFileFromList(file, i);
      ghost var rest, vs := files, Values(files);
      file.SetOSName(path);
      SameValues(rest, vs);
      AddFileToList(file);
      k := Position(vs, Name(file.V()));
      SameAfterMove(fs, i, k);
      SameMembers(fs, files);
    }

    method FileRename(file: DiskFile, path: seq<byte>, ghost i: nat)
      requires Valid() && Inv(M()) && |path| <= NAME_LEN && i < |files| && files[i] == file
      modifies this, files, sectors`bitmapChanged, sectors.volHdr, sectors.device
      ensures Valid() && M() == VolumeOps.FileRename(old(M()), i, path)
      ensures SameFiles(old(files), files)
    {
      hide Inv, Values, VolumeOps.FileRename, Steady, Linked, Flush, WfVol, CleanBut, MovedTo, Clean, Different,
        WfDisk, WfFile, DiskVolume.Valid, SameFiles;
      ghost var v, fs := M(), files;
      ghost var k := MoveFile(file, path, i);
      RenameIs(v, i, path, M(), k);
      FlushWith(file, k);
    }
  }

  /** ws is vs with file i renamed and moved to its place k. */
  ghost predicate MovedTo(vs: seq<File>, i: nat, path: seq<byte>, ws: seq<File>, k: nat) {
    && WfFiles(vs) && i < |vs| && |path| <= NAME_LEN && WfFiles(RemoveAt(vs, i)) && WfFile(Renamed(vs[i], path))
    && ws == Added(RemoveAt(vs, i), Renamed(vs[i], path)) && k == Position(RemoveAt(vs, i), Name(Renamed(vs[i], path)))
  }

  ghost predicate SameFiles(was: seq<DiskFile>, now: seq<DiskFile>) {
    |now| == |was| && (forall i :: 0 <= i < |now| ==> now[i] in was) && (forall i :: 0 <= i < |was| ==> was[i] in now)
  }

  lemma SameMembers(was: seq<DiskFile>, now: seq<DiskFile>)
    requires SameFiles(was, now)
    ensures forall j :: 0 <= j < |now| ==> now[j] in was
  {
  }

  lemma SameAfterMove(fs: seq<DiskFile>, i: nat, k: nat)
    requires i < |fs| && k <= |fs| - 1
    ensures SameFiles(fs, InsertFile(WithoutFile(fs, i), k, fs[i]))
  {
    hide InsertFile, WithoutFile, Joins;
    RemovedFiles(fs, i);
    InsertedFiles(WithoutFile(fs, i), k, fs[i]);
    assert Joins(WithoutFile(fs, i), InsertFile(WithoutFile(fs, i), k, fs[i]), fs[i]);
    JoinsBoth(WithoutFile(fs, i), InsertFile(WithoutFile(fs, i), k, fs[i]), fs[i]);
  }

  lemma JoinsBoth(was: seq<DiskFile>, now: seq<DiskFile>, file: DiskFile)
    requires Joins(was, now, file)
    ensures forall i :: 0 <= i < |now| ==> now[i] == file || now[i] in was
    ensures forall f :: f == file || f in was ==> f in now
  {
  }

  lemma SameValues(fs: seq<DiskFile>, vs: seq<File>)
    requires |vs| == |fs| && forall i :: 0 <= i < |fs| ==> fs[i].V() == vs[i]
    ensures Values(fs) == vs
  {
    hide Values;
  }

  lemma CanFree(v: Vol, i: nat)
    requires Inv(v) && i < |v.files|
    ensures WfDisk(v.disk) && WfFile(v.files[i]) && RunsOnDisk(v.disk, Runs(v.files[i])) && 0 <= v.files[i].dir < |v.disk.dev|
  {
    SteadyOf(v);
    hide Linked, Dirs, DirBytes, Apart, Exact, Sorted, EntriesOk, UniqueInodes, Walk;
    FreeKeeps(v.disk, v.files, i);
    DirAbove(v.disk, v.files, i);
  }

  lemma NotFound(v: Vol, path: seq<byte>)
    requires Inv(v) && forall j :: 0 <= j < |v.files| ==> v.files[j].osname != path
    ensures Find(v.files, path) == -1 && VolumeOps.FileUnlink(v, path) == (v, false)
  {
    hide Inv;
  }

  /** What is left to do once the file is off the list or marked. */
  lemma UnlinkIs(v: Vol, path: seq<byte>)
    requires Inv(v) && Find(v.files, path) != -1
    ensures var i := Find(v.files, path);
            && WfDisk(v.disk) && WfFile(v.files[i]) && RunsOnDisk(v.disk, Runs(v.files[i])) && 0 <= v.files[i].dir < |v.disk.dev|
            && var u := if v.files[i].refs == 0 then v.(disk := FreeFile(v.disk, v.files[i]), files := RemoveAt(v.files, i))
                        else v.(files := v.files[i := v.files[i].(unlinked := true)]);
               && Steady(u) && Clean(u.files) && |Linked(u.files)| <= MAX_ENTRIES
               && WfVol(u) && WfVol(VolumeModel.UpdateDirectory(u))
               && VolumeOps.FileUnlink(v, path) == (SyncVol(VolumeModel.UpdateDirectory(u)), true)
  {
    SteadyOf(v);
    hide Inv, Linked, SyncVol, VolumeModel.UpdateDirectory, WfVol, Clean, FreeFile, Steady;
    var i := Find(v.files, path);
    CanFree(v, i);
    if v.files[i].refs == 0 {
      RemovedSteady(v, i);
      LinkedFewer(v.files, i);
      FlushAllKeeps(v.(disk := FreeFile(v.disk, v.files[i]), files := RemoveAt(v.files, i)));
    } else {
      var g := v.files[i].(unlinked := true);
      RecountSteady(v, i, g);
      LinkedNoMore(v.files, i, g);
      CleanAt(v.files, i);
      RecountClean(v.files, i, g);
      FlushAllKeeps(v.(files := v.files[i := g]));
    }
  }

  lemma CleanAt(fs: seq<File>, i: nat)
    requires Clean(fs) && i < |fs|
    ensures !fs[i].dirty
  {
  }

  lemma RenameIs(v: Vol, i: nat, path: seq<byte>, u: Vol, k: nat)
    requires Inv(v) && u == v.(files := u.files) && MovedTo(v.files, i, path, u.files, k)
    ensures i < |v.files| && |path| <= NAME_LEN
    ensures Steady(u) && |Linked(u.files)| <= MAX_ENTRIES && k < |u.files| && CleanBut(u.files, k)
    ensures WfVol(u) && WfVol(VolumeModel.UpdateDirectory(u)) && WfVol(SyncAt(VolumeModel.UpdateDirectory(u), k))
    ensures VolumeOps.FileRename(v, i, path) == Flush(u, k)
  {
    SteadyOf(v);
    hide Inv, Linked, Flush, WfVol, Position, VolumeModel.UpdateDirectory, SyncAt, Clean, EncodeChains, Steady, TiName;
    MovedSteady(v, i, path);
    FileEntry(v, i);
    RenamedFile(v.files[i], path);
    RenamedLinked(v.files, i, k, Renamed(v.files[i], path));
    FlushKeeps(Moved(v, i, path), k);
  }

  lemma RemovedFiles(fs: seq<DiskFile>, k: nat)
    requires k < |fs|
    ensures forall f :: f in fs <==> f == fs[k] || f in WithoutFile(fs, k)
  {
    hide WithoutFile;
    var gs := WithoutFile(fs, k);
    forall f | f in fs && f != fs[k] ensures f in gs {
      var i :| 0 <= i < |fs| && fs[i] == f;
      assert gs[Before(k, i)] == f;
    }
    forall f | f in gs ensures f in fs {
      var i :| 0 <= i < |gs| && gs[i] == f;
      assert fs[After(k, i)] == f;
    }
  }

  lemma DirtyIrrelevant(d: Disk, f: File, dirty: bool)
    requires WfDisk(d) && WfFile(f)
    ensures FileModel.Create(d, f.(dirty := dirty)) == FileModel.Create(d, f)
  {
    hide FirstFree, Mark;
  }

  lemma CreateFails(v: Vol, path: seq<byte>, table: seq<Chain>)
    requires Inv(v) && |Linked(v.files)| < MAX_ENTRIES && |table| == MAX_FILE_CHAINS && |path| <= NAME_LEN
    requires WfDisk(v.disk) && FileModel.Create(v.disk, NewFile(v.next, path, table)) == None
    ensures VolumeOps.FileCreate(v, path, table) == (v.(next := v.next + 1), None)
  {
    hide Inv, Flush, Linked, FirstFree, Position, Joined, SyncFile;
  }

  /** What is left to do once the file is in the list. */
  lemma CreateIs(v: Vol, path: seq<byte>, table: seq<Chain>, u: Vol, f: File)
    requires Inv(v) && |Linked(v.files)| < MAX_ENTRIES && |table| == MAX_FILE_CHAINS && |path| <= NAME_LEN
    requires WfDisk(v.disk) && WfFiles(v.files) && WfFile(f)
    requires FileModel.Create(v.disk, NewFile(v.next, path, table)) == Some((u.disk, f))
    requires u == v.(disk := u.disk, files := Added(v.files, f), next := v.next + 1)
    ensures var k := Position(v.files, Name(f));
            && Steady(u) && |Linked(u.files)| <= MAX_ENTRIES && k < |u.files| && CleanBut(u.files, k)
            && WfVol(u) && WfVol(VolumeModel.UpdateDirectory(u)) && WfVol(SyncAt(VolumeModel.UpdateDirectory(u), k))
            && VolumeOps.FileCreate(v, path, table) == (Flush(u, k), Some(v.next))
  {
    SteadyWf(v);
    hide Inv, Flush, Linked, Position, SyncFile, Mark, Steady, WfVol, EntriesOk, Clean, VolumeModel.UpdateDirectory,
      SyncAt;
    CreateSome(v, path, table);
    JoinedSteady(v, path, table);
    AddedLinked(v.files, Position(v.files, Name(f)), f);
    CleanAll(u.files, Position(v.files, Name(f)));
    FlushKeeps(u, Position(v.files, Name(f)));
  }

  lemma CreateSome(v: Vol, path: seq<byte>, table: seq<Chain>)
    requires WfVol(v) && |table| == MAX_FILE_CHAINS && |path| <= NAME_LEN
    requires FileModel.Create(v.disk, NewFile(v.next, path, table)) != None
    ensures FirstFree(v.disk, 0) != -1
    ensures Joined(v, path, table) == Some(v.(disk := FileModel.Create(v.disk, NewFile(v.next, path, table)).value.0,
                                              files := Added(v.files, FileModel.Create(v.disk, NewFile(v.next, path, table)).value.1),
                                              next := v.next + 1))
  {
    hide SyncFile, Mark, TiName, Added;
  }

  ghost predicate CleanBut(fs: seq<File>, i: nat) {
    forall k :: 0 <= k < |fs| && k != i ==> !fs[k].dirty
  }

  lemma CleanAll(fs: seq<File>, i: nat)
    requires Clean(fs)
    ensures CleanBut(fs, i)
  {
  }

  /** The list is the old one and one more file. */
  ghost predicate Joins(was: seq<DiskFile>, now: seq<DiskFile>, file: DiskFile) {
    && file in now && |now| == |was| + 1
    && (forall f :: f in now ==> f == file || f in was)
    && (forall f :: f in was ==> f in now)
  }

  lemma InsertedFiles(fs: seq<DiskFile>, k: nat, f: DiskFile)
    requires k <= |fs|
    ensures Joins(fs, InsertFile(fs, k, f), f)
  {
  }

  function InsertFile(fs: seq<DiskFile>, k: nat, f: DiskFile): (gs: seq<DiskFile>)
    requires k <= |fs|
    ensures |gs| == |fs| + 1 && gs[k] == f
    ensures forall i :: 0 <= i < k ==> gs[i] == fs[i]
    ensures forall i :: k < i < |gs| ==> gs[i] == fs[i - 1]
  {
    fs[..k] + [f] + fs[k..]
  }

  lemma ValuesInsert(fs: seq<DiskFile>, k: nat, f: DiskFile)
    requires k <= |fs|
    ensures Values(InsertFile(fs, k, f)) == InsertAt(Values(fs), k, f.V())
  {
    hide Values, InsertFile, InsertAt;
    var gs, vs := InsertFile(fs, k, f), InsertAt(Values(fs), k, f.V());
    forall i | 0 <= i < |gs| ensures Values(gs)[i] == vs[i] {
      assert i > k ==> gs[i] == fs[i - 1];
    }
  }

  lemma DifferentInsert(fs: seq<DiskFile>, k: nat, f: DiskFile)
    requires k <= |fs| && Different(fs) && f !in fs
    ensures Different(InsertFile(fs, k, f))
  {
    hide InsertFile;
    var gs := InsertFile(fs, k, f);
    forall i, j | 0 <= i < j < |gs| ensures gs[i] != gs[j] {
      assert i == k || gs[i] == fs[Before(k, i)];
      assert j == k || gs[j] == fs[Before(k, j)];
    }
  }

  function WithoutFile(fs: seq<DiskFile>, k: nat): (gs: seq<DiskFile>)
    requires k < |fs|
    ensures |gs| == |fs| - 1
    ensures forall i :: 0 <= i < |gs| ==> gs[i] == fs[After(k, i)]
  {
    fs[..k] + fs[k + 1..]
  }

  lemma ValuesRemove(fs: seq<DiskFile>, k: nat)
    requires k < |fs|
    ensures Values(WithoutFile(fs, k)) == RemoveAt(Values(fs), k)
  {
    hide Values, WithoutFile, RemoveAt;
    var gs, vs := WithoutFile(fs, k), RemoveAt(Values(fs), k);
    forall i | 0 <= i < |gs| ensures Values(gs)[i] == vs[i] {
      assert gs[i] == fs[After(k, i)];
    }
  }

  lemma DifferentRemove(fs: seq<DiskFile>, k: nat)
    requires k < |fs| && Different(fs)
    ensures Different(WithoutFile(fs, k)) && fs[k] !in WithoutFile(fs, k)
  {
    hide WithoutFile;
    var gs := WithoutFile(fs, k);
    forall i, j | 0 <= i < j < |gs| ensures gs[i] != gs[j] {
      assert gs[i] == fs[After(k, i)] && gs[j] == fs[After(k, j)];
    }
    forall i | 0 <= i < |gs| ensures gs[i] != fs[k] {
      assert gs[i] == fs[After(k, i)];
    }
  }

  ghost function Opened(file: DiskFile?): Option<nat> {
    if file == null then None else Some(file.inode)
  }

  lemma FindIs(fs: seq<File>, path: seq<byte>, k: nat)
    requires k < |fs| && fs[k].osname == path && forall j :: 0 <= j < k ==> fs[j].osname != path
    ensures Find(fs, path) == k
  {
  }

  lemma PositionIs(fs: seq<File>, name: seq<byte>, k: nat)
    requires WfFiles(fs) && |name| == NAME_LEN && k <= |fs|
    requires k < |fs| ==> Less(name, Name(fs[k]))
    requires forall i :: 0 <= i < k ==> !Less(name, Name(fs[i]))
    ensures Position(fs, name) == k
  {
    hide Less, Name, PositionFrom;
  }

  /** The first n files are flushed and listed in the directory sector. */
  ghost predicate ListedUpTo(v: Vol, n: nat, entry: nat, u: Vol) {
    && WfVol(v) && n <= |v.files| && |Linked(v.files[..n])| <= MAX_ENTRIES && entry == |Linked(v.files[..n])|
    && u == SyncedUpTo(v, n).(dirHdr := DirBytes(Dirs(Linked(v.files[..n]))))
  }

  lemma NothingListed(v: Vol)
    requires WfVol(v)
    ensures ListedUpTo(v, 0, 0, v.(dirHdr := seq(SECTOR, _ => 0)))
  {
    NothingSynced(v);
    assert v.files[..0] == [];
    assert DirBytes([]) == seq(SECTOR, _ => 0);
  }

  lemma {:induction false} LinkedGrows(fs: seq<File>, n: nat)
    requires n <= |fs|
    ensures |Linked(fs[..n])| <= |Linked(fs)|
  {
    if n == |fs| {
      assert fs[..n] == fs;
    } else {
      LinkedGrows(fs[..|fs| - 1], n);
      assert fs[..|fs| - 1][..n] == fs[..n];
    }
  }

  lemma NextEntry(ds: seq<int>, d: int)
    requires |ds| < MAX_ENTRIES
    ensures DirBytes(ds + [d]) == DirBytes(ds)[2 * |ds| := Byte(d / 256)][2 * |ds| + 1 := Byte(d)]
  {
    hide Byte;
    assert (ds + [d])[..|ds|] == ds;
  }

  /** One pass of the loop over a linked file. */
  function ListOne(u: Vol, n: nat, entry: nat): Vol
    requires WfVol(u) && n < |u.files| && entry < MAX_ENTRIES
  {
    var dir := u.files[n].dir;
    SyncAt(u.(dirHdr := u.dirHdr[2 * entry := Byte(dir / 256)][2 * entry + 1 := Byte(dir)]), n)
  }

  lemma ListedFile(v: Vol, n: nat, entry: nat, u: Vol)
    requires Steady(v) && |Linked(v.files)| <= MAX_ENTRIES && ListedUpTo(v, n, entry, u) && n < |v.files|
    ensures WfVol(u) && |u.files| == |v.files| && u.files[n] == v.files[n]
    ensures !v.files[n].unlinked ==> entry < MAX_ENTRIES
  {
    hide Steady, SyncedUpTo, SyncFile, Linked, DirBytes, Entries, CleanedUpTo, WfDisk;
    SyncLinkedKeeps(v, n);
    var w := SyncedUpTo(v, n);
    CleanedNext(v.files, w.files, n + 1);
    SteadyWf(w);
    LinkedGrows(v.files, n + 1);
    LinkedNext(v.files, n);
  }

  lemma SkipUnlinked(v: Vol, n: nat, entry: nat, u: Vol)
    requires Steady(v) && ListedUpTo(v, n, entry, u) && n < |v.files| && v.files[n].unlinked
    ensures ListedUpTo(v, n + 1, entry, u)
  {
    hide Steady, SyncedUpTo, SyncFile, Linked, DirBytes, Entries, CleanedUpTo, WfDisk;
    SyncLinkedKeeps(v, n);
    CleanedNext(v.files, SyncedUpTo(v, n).files, n + 1);
    SteadyWf(SyncedUpTo(v, n));
    OneMoreSynced(v, n + 1);
    LinkedNext(v.files, n);
  }

  lemma ListLinked(v: Vol, n: nat, entry: nat, u: Vol)
    requires WfVol(u) && n < |u.files| && entry < MAX_ENTRIES
    requires Steady(v) && ListedUpTo(v, n, entry, u) && n < |v.files| && !v.files[n].unlinked
    ensures ListedUpTo(v, n + 1, entry + 1, ListOne(u, n, entry))
  {
    hide Steady, SyncedUpTo, SyncFile, Linked, DirBytes, Entries, CleanedUpTo, WfDisk, WfFiles, DirsOnDisk, Dirs;
    SyncLinkedKeeps(v, n);
    var w := SyncedUpTo(v, n);
    CleanedNext(v.files, w.files, n + 1);
    SteadyWf(w);
    OneMoreSynced(v, n + 1);
    LinkedNext(v.files, n);
    NextEntry(Dirs(Linked(v.files[..n])), v.files[n].dir);
  }

  lemma LinkedNext(fs: seq<File>, n: nat)
    requires n < |fs|
    ensures fs[n].unlinked ==> Linked(fs[..n + 1]) == Linked(fs[..n])
    ensures !fs[n].unlinked ==> Linked(fs[..n + 1]) == Linked(fs[..n]) + [fs[n]]
                                && Dirs(Linked(fs[..n + 1])) == Dirs(Linked(fs[..n])) + [fs[n].dir]
  {
    assert fs[..n + 1][..n] == fs[..n];
  }

  lemma AllListed(v: Vol, entry: nat, w: Vol, u: Vol)
    requires WfVol(v) && Steady(v) && |Linked(v.files)| <= MAX_ENTRIES && ListedUpTo(v, |v.files|, entry, w)
    requires u == w.(dirDirty := true)
    ensures u == VolumeModel.UpdateDirectory(v)
  {
    hide SyncedUpTo, Linked, DirBytes, Dirs, Steady;
    assert v.files[..|v.files|] == v.files;
    AllSynced(v);
  }
}
