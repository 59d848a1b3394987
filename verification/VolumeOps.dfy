/** The volume's operations, and that each keeps the invariant. */
module VolumeOps {
  import opened Bytes
  import opened SectorMap
  import opened Chains
  import opened FileModel
  import opened FileLaws
  import opened Ownership
  import opened Directory
  import opened VolumeModel

  // ----- create

  /** The list and disk right after create, before the directory is rewritten. */
  function Joined(v: Vol, path: seq<byte>, table: seq<Chain>): (r: Option<Vol>)
    requires WfVol(v) && |table| == MAX_FILE_CHAINS && |path| <= NAME_LEN
    ensures r.Some? ==> |r.value.disk.dev| == |v.disk.dev|
  {
    match Create(v.disk, NewFile(v.next, path, table))
    case None => None
    case Some(r) => Some(v.(disk := r.0, files := Added(v.files, r.1), next := v.next + 1))
  }

  lemma {:induction false} SlotsNone(n: nat)
    ensures forall i :: 0 <= i < 3 * n ==> Slots([], n)[i] == 0
  {
    if n > 0 {
      SlotsNone(n - 1);
    }
  }

  lemma NewFileEntry(inode: nat, path: seq<byte>, table: seq<Chain>)
    requires |table| == MAX_FILE_CHAINS && |path| <= NAME_LEN
    ensures var f := NewFile(inode, path, table);
            && Sectors(f) == [] && SecCount(f.hdr) == 0 && f.hdr == EncodeChains(f.hdr, Runs(f)) && Sized(f)
            && Name(f) == TiName(path)
  {
    SlotsNone(SAVED_CHAINS);
    var f := NewFile(inode, path, table);
    var e := EncodeChains(f.hdr, Runs(f));
    forall i | 0 <= i < SECTOR ensures e[i] == f.hdr[i] {
    }
  }

  lemma CreatedFile(v: Vol, path: seq<byte>, table: seq<Chain>)
    requires Steady(v) && |table| == MAX_FILE_CHAINS && |path| <= NAME_LEN
    requires FirstFree(v.disk, 0) != -1
    ensures var s := FirstFree(v.disk, 0);
            var r := Create(v.disk, NewFile(v.next, path, table));
            && r.Some? && 2 <= s < |v.disk.dev| && |r.value.0.dev| == |v.disk.dev|
            && r.value.1 == NewFile(v.next, path, table).(dir := s, refs := 1) && !r.value.1.dirty
            && r.value.0.vol == Allocate(v.disk, s, 1).vol && Synced(r.value.0)
            && OnlyWrites(v.disk, r.value.0, [s, VOL_HDR_SECTOR]) && r.value.0.dev[s] == r.value.1.hdr
  {
    hide Used, Mark, Less, Apart, SecCount, Walk, TiName, EntriesOk;
    var s := FirstFree(v.disk, 0);
    assert Used(v.disk.vol, 0) && Used(v.disk.vol, 1);
    var f := NewFile(v.next, path, table).(dir := s, refs := 1, dirty := true);
    MarkKeepsCount(v.disk.vol, s, 1, 1);
    SyncFileFacts(Allocate(v.disk, s, 1), f);
  }

  lemma NewOwned(d: Disk, f: File, s: nat)
    requires WfDisk(d) && WfFile(f) && f.dir == s && 2 <= s < |d.dev| && Used(d.vol, s)
    requires f.count == 0 && SecCount(f.hdr) == 0
    ensures Owned(d, f) && Owns(f) == [s]
  {
  }

  lemma JoinedAllocated(v: Vol, d: Disk, f: File, s: nat)
    requires Steady(v) && s == FirstFree(v.disk, 0) && 2 <= s < |v.disk.dev| && WfDisk(d) && |d.dev| == |v.disk.dev|
    requires d.vol == Allocate(v.disk, s, 1).vol && WfFile(f) && f.dir == s && f.count == 0 && SecCount(f.hdr) == 0
    ensures Allocated(d, Added(v.files, f))
  {
    hide Used, Mark, Sorted, SecCount, Walk, EntriesOk, Position, Owned, Apart;
    forall t | 0 <= t < MAX_SECTORS ensures Used(d.vol, t) <==> Used(v.disk.vol, t) || t == s {
      MarkUsed(v.disk.vol, s, 1, 1, t);
    }
    NewOwned(d, f, s);
    InsertKeeps(v.disk, d, v.files, Position(v.files, Name(f)), f);
  }

  lemma JoinedSteady(v: Vol, path: seq<byte>, table: seq<Chain>)
    requires Inv(v) && |table| == MAX_FILE_CHAINS && |path| <= NAME_LEN
    requires FirstFree(v.disk, 0) != -1
    ensures WfVol(v) && Joined(v, path, table).Some?
    ensures var u := Joined(v, path, table).value;
            Steady(u) && Clean(u.files) && u.next == v.next + 1
  {
    hide Used, SecCount, Walk, Allocated, Position, EncodeChains, Create, NewFile, Mark, FirstFree, OnlyWrites,
      Linked, EntriesOk, Added,
      Inv, WfVol, UniqueInodes, Clean, Synced, Sorted;
    SteadyOf(v);
    CreatedFile(v, path, table);
    NewFileEntry(v.next, path, table);
    var s := FirstFree(v.disk, 0);
    var (d, f) := Create(v.disk, NewFile(v.next, path, table)).value;
    NewFileShape(v.next, path, table);
    JoinedAllocated(v, d, f, s);
    AddedSorted(v.files, f);
    JoinedEntries(v, d, f, s);
  }

  lemma NewFileShape(inode: nat, path: seq<byte>, table: seq<Chain>)
    requires |table| == MAX_FILE_CHAINS && |path| <= NAME_LEN
    ensures var f := NewFile(inode, path, table); f.count == 0 && f.inode == inode && !f.dirty
  {
    hide TiName;
  }

  lemma JoinedEntries(v: Vol, d: Disk, f: File, s: nat)
    requires Steady(v) && Clean(v.files) && WfDisk(d) && |d.dev| == |v.disk.dev| && OnlyWrites(v.disk, d, [s, VOL_HDR_SECTOR])
    requires WfFile(f) && f.dir == s && 0 <= s < |d.dev| && d.dev[s] == f.hdr && f.inode == v.next && !f.dirty
    requires f.hdr == EncodeChains(f.hdr, Runs(f)) && s == FirstFree(v.disk, 0)
    ensures EntriesOk(d, Added(v.files, f), v.next + 1) && UniqueInodes(Added(v.files, f)) && Clean(Added(v.files, f))
  {
    hide Used, Sorted, SecCount, Walk, Apart, Exact, AllOwned, EncodeChains, Position;
    var k := Position(v.files, Name(f));
    var gs := Added(v.files, f);
    forall i | 0 <= i < |gs| ensures gs[i].inode < v.next + 1 && EntryOk(d, gs[i]) && !gs[i].dirty {
      if i != k {
        var j := Before(k, i);
        assert EntryOk(v.disk, v.files[j]);
        DirUsed(v.disk, v.files, j);
        OtherSector(v.disk, d, s, v.files[j].dir);
      }
    }
    forall i, j | 0 <= i < j < |gs| ensures gs[i].inode != gs[j].inode {
      if i != k && j != k {
        assert gs[i] == v.files[Before(k, i)] && gs[j] == v.files[Before(k, j)];
      }
    }
  }

  lemma DirUsed(d: Disk, fs: seq<File>, k: nat)
    requires Allocated(d, fs) && k < |fs|
    ensures 2 <= fs[k].dir < |d.dev| && Used(d.vol, fs[k].dir)
  {
    hide Sound;
    assert Owned(d, fs[k]);
  }

  lemma {:induction false} AddedLinked(fs: seq<File>, k: nat, f: File)
    requires k <= |fs|
    ensures |Linked(InsertAt(fs, k, f))| <= |Linked(fs)| + 1
  {
    var gs := InsertAt(fs, k, f);
    if k == |fs| {
      assert gs[..|gs| - 1] == fs;
    } else {
      AddedLinked(fs[..|fs| - 1], k, f);
      assert gs[..|gs| - 1] == InsertAt(fs[..|fs| - 1], k, f);
    }
  }

  /** fileCreate: the new volume and the new file's identity. */
  function FileCreate(v: Vol, path: seq<byte>, table: seq<Chain>): (r: (Vol, Option<nat>))
    requires Inv(v) && |Linked(v.files)| < MAX_ENTRIES && |table| == MAX_FILE_CHAINS && |path| <= NAME_LEN
    ensures Inv(r.0) && r.0.next == v.next + 1 && |r.0.disk.dev| == |v.disk.dev|
    ensures r.1 == None <==> FirstFree(v.disk, 0) == -1
    ensures r.1.Some? ==> !r.0.disk.changed
  {
    SteadyWf(v);
    if FirstFree(v.disk, 0) == -1 then
      NextIrrelevant(v);
      (v.(next := v.next + 1), None)
    else
      JoinedSteady(v, path, table);
      var u := Joined(v, path, table).value;
      var f := Create(v.disk, NewFile(v.next, path, table)).value.1;
      AddedLinked(v.files, Position(v.files, Name(f)), f);
      FlushKeeps(u, Position(v.files, Name(f)));
      (Flush(u, Position(v.files, Name(f))), Some(v.next))
  }

  lemma NextIrrelevant(v: Vol)
    requires Inv(v)
    ensures Inv(v.(next := v.next + 1))
  {
    hide Allocated, UniqueInodes, Sorted, Synced, EntryOk, Linked, Dirs, DirBytes;
  }

  /** The created file is in the list under its name, held once, empty; the others are as they
      were. */
  lemma CreateLaw(v: Vol, path: seq<byte>, table: seq<Chain>)
    requires Inv(v) && |Linked(v.files)| < MAX_ENTRIES && |table| == MAX_FILE_CHAINS && |path| <= NAME_LEN
    ensures var (v', r) := FileCreate(v, path, table);
            r.Some? ==>
              && r.value == v.next
              && v'.files == Added(v.files, NewFile(v.next, path, table).(dir := FirstFree(v.disk, 0), refs := 1))
  {
    SteadyWf(v);
    hide Steady, Linked, Dirs, SyncVol, SyncAt, UpdateDirectory, Flush, FirstFree, NewFile, Create, Position, DirBytes,
      Joined, Added, Inv, WfVol, EntriesOk, WfFile;
    if FirstFree(v.disk, 0) != -1 {
      JoinedSteady(v, path, table);
      JoinedFiles(v, path, table);
      var u := Joined(v, path, table).value;
      var f := Create(v.disk, NewFile(v.next, path, table)).value.1;
      var k := Position(v.files, Name(f));
      AddedLinked(v.files, k, f);
      FlushKeeps(u, k);
    }
  }

  lemma JoinedFiles(v: Vol, path: seq<byte>, table: seq<Chain>)
    requires Inv(v) && |table| == MAX_FILE_CHAINS && |path| <= NAME_LEN && FirstFree(v.disk, 0) != -1
    ensures WfVol(v) && Create(v.disk, NewFile(v.next, path, table)).Some? && Joined(v, path, table).Some?
    ensures var f := Create(v.disk, NewFile(v.next, path, table)).value.1;
            var u := Joined(v, path, table).value;
            && WfFiles(v.files) && WfFile(f)
            && f == NewFile(v.next, path, table).(dir := FirstFree(v.disk, 0), refs := 1)
            && u.files == InsertAt(v.files, Position(v.files, Name(f)), f) == Added(v.files, f)
            && u.files[Position(v.files, Name(f)) := Cleaned(u.files[Position(v.files, Name(f))], true)] == u.files
  {
    SteadyWf(v);
    hide Steady, Linked, Dirs, FirstFree, Create, PositionFrom, DirBytes, NewFile, Inv, Allocated, Synced, Allocate,
      OnlyWrites;
    SteadyOf(v);
    CreatedFile(v, path, table);
    CreatedSame(v.files, Create(v.disk, NewFile(v.next, path, table)).value.1);
  }

  lemma CreatedSame(fs: seq<File>, f: File)
    requires WfFiles(fs) && WfFile(f) && !f.dirty
    ensures var k := Position(fs, Name(f));
            Added(fs, f)[k := Cleaned(Added(fs, f)[k], true)] == Added(fs, f)
  {
    hide PositionFrom;
  }

  // ----- changes to one file's counters

  /** Same sectors, entry and name; only counters, marks and path may differ. */
  ghost predicate SameOnDisk(f: File, g: File) {
    && g.dir == f.dir && g.hdr == f.hdr && g.table == f.table && g.count == f.count && g.inode == f.inode
    && g.dirty == f.dirty
  }

  lemma RecountSteady(v: Vol, i: nat, g: File)
    requires Steady(v) && i < |v.files| && SameOnDisk(v.files[i], g)
    ensures Steady(v.(files := v.files[i := g]))
  {
    hide Sorted, Apart, Exact, AllOwned, Synced, Walk, SecCount, EncodeChains;
    assert EntryOk(v.disk, v.files[i]);
    SameKeeps(v.disk, v.disk, v.files, i, g);
    ReplacedSorted(v.files, i, g);
  }

  lemma RecountKeeps(v: Vol, i: nat, g: File)
    requires Inv(v) && i < |v.files| && SameOnDisk(v.files[i], g) && g.unlinked == v.files[i].unlinked
    ensures Inv(v.(files := v.files[i := g]))
  {
    hide Steady, Linked, Dirs, DirBytes;
    RecountSteady(v, i, g);
    LinkedSame(v.files, v.files[i := g]);
  }

  function FileOpen(v: Vol, path: seq<byte>): (r: (Vol, Option<nat>))
    requires Inv(v)
    ensures Inv(r.0)
  {
    var i := Find(v.files, path);
    if i == -1 then (v, None)
    else
      var f := v.files[i];
      RecountKeeps(v, i, f.(refs := f.refs + 1));
      (v.(files := v.files[i := f.(refs := f.refs + 1)]), Some(f.inode))
  }

  // ----- a file goes

  lemma RemovedEntries(d: Disk, d': Disk, fs: seq<File>, next: nat, k: nat)
    requires Allocated(d, fs) && EntriesOk(d, fs, next) && UniqueInodes(fs) && k < |fs| && WfDisk(d') && d'.dev == d.dev
    ensures EntriesOk(d', RemoveAt(fs, k), next) && UniqueInodes(RemoveAt(fs, k))
    ensures Clean(fs) ==> Clean(RemoveAt(fs, k))
  {
    hide Allocated, EncodeChains;
    var gs := RemoveAt(fs, k);
    forall i | 0 <= i < |gs| ensures gs[i].inode < next && EntryOk(d', gs[i]) {
      assert EntryOk(d, fs[After(k, i)]);
    }
    forall i, j | 0 <= i < j < |gs| ensures gs[i].inode != gs[j].inode {
      assert gs[i] == fs[After(k, i)] && gs[j] == fs[After(k, j)];
    }
  }

  lemma {:induction false} FreeRunsCount(d: Disk, cs: seq<Chain>)
    requires WfDisk(d) && RunsOnDisk(d, cs)
    ensures HeaderCount(FreeRuns(d, cs).vol) == HeaderCount(d.vol)
  {
    hide Mark, HeaderCount;
    if cs != [] {
      var c := cs[|cs| - 1];
      FreeRunsCount(d, cs[..|cs| - 1]);
      MarkKeepsCount(FreeRuns(d, cs[..|cs| - 1]).vol, c.start, c.end - c.start + 1, 0);
    }
  }

  /** The device still marks every sector in use after some are freed. */
  lemma FreedMarked(d: Disk, f: File)
    requires Synced(d) && Owned(d, f)
    ensures RunsOnDisk(d, Runs(f)) && Synced(FreeFile(d, f))
  {
    hide Walk, Used, FreeRuns, Sound, Mark, HeaderCount;
    RunsAllocated(d, f);
    FreeRunsCount(d, Runs(f));
    MarkKeepsCount(FreeRuns(d, Runs(f)).vol, f.dir, 1, 0);
    forall s | 0 <= s < |d.dev| && Used(FreeFile(d, f).vol, s) ensures Used(d.dev[VOL_HDR_SECTOR], s) {
      FreeFileUsed(d, f, s);
    }
  }

  lemma RemovedSteady(v: Vol, k: nat)
    requires Steady(v) && Clean(v.files) && k < |v.files|
    ensures RunsOnDisk(v.disk, Runs(v.files[k])) && 0 <= v.files[k].dir < |v.disk.dev|
    ensures var u := v.(disk := FreeFile(v.disk, v.files[k]), files := RemoveAt(v.files, k));
            Steady(u) && Clean(u.files)
  {
    hide Sorted, Apart, Exact, Walk, SecCount, EntriesOk, UniqueInodes, Used, FreeFile;
    DirAbove(v.disk, v.files, k);
    FreedMarked(v.disk, v.files[k]);
    FreeKeeps(v.disk, v.files, k);
    RemovedSorted(v.files, k);
    RemovedEntries(v.disk, FreeFile(v.disk, v.files[k]), v.files, v.next, k);
  }

  lemma {:induction false} LinkedFewer(fs: seq<File>, k: nat)
    requires k < |fs|
    ensures |Linked(RemoveAt(fs, k))| <= |Linked(fs)|
    ensures fs[k].unlinked ==> Linked(RemoveAt(fs, k)) == Linked(fs)
  {
    var gs := RemoveAt(fs, k);
    if k == |fs| - 1 {
      assert gs == fs[..|fs| - 1];
    } else {
      LinkedFewer(fs[..|fs| - 1], k);
      assert gs[..|gs| - 1] == RemoveAt(fs[..|fs| - 1], k);
    }
  }

  /** fileClose. The last close of an unlinked file frees its sectors; the bitmap goes to the
      device with the next flush. */
  function FileClose(v: Vol, i: nat): (v': Vol)
    requires Inv(v) && i < |v.files| && v.files[i].refs > 0
    ensures Inv(v') && v'.next == v.next && |v'.disk.dev| == |v.disk.dev|
  {
    var f := v.files[i].(refs := v.files[i].refs - 1);
    RecountKeeps(v, i, f);
    var u := v.(files := v.files[i := f]);
    if f.refs == 0 && f.unlinked then
      RemovedSteady(u, i);
      LinkedFewer(u.files, i);
      u.(disk := FreeFile(u.disk, f), files := RemoveAt(u.files, i))
    else u
  }

  lemma {:induction false} LinkedNoMore(fs: seq<File>, k: nat, g: File)
    requires k < |fs| && g.unlinked
    ensures |Linked(fs[k := g])| <= |Linked(fs)|
  {
    var n := |fs| - 1;
    if k == n {
      assert fs[k := g][..n] == fs[..n];
    } else {
      LinkedNoMore(fs[..n], k, g);
      assert fs[k := g][..n] == fs[..n][k := g];
    }
  }

  lemma RecountClean(fs: seq<File>, i: nat, g: File)
    requires Clean(fs) && i < |fs| && !g.dirty
    ensures Clean(fs[i := g])
  {
  }

  /** fileUnlink: at once when nobody holds the file, else it only leaves the directory. */
  function FileUnlink(v: Vol, path: seq<byte>): (r: (Vol, bool))
    requires Inv(v)
    ensures Inv(r.0) && r.0.next == v.next && |r.0.disk.dev| == |v.disk.dev|
    ensures r.1 <==> Find(v.files, path) != -1
    ensures r.1 ==> !r.0.disk.changed
  {
    var i := Find(v.files, path);
    if i == -1 then (v, false)
    else if v.files[i].refs == 0 then
      RemovedSteady(v, i);
      LinkedFewer(v.files, i);
      var u := v.(disk := FreeFile(v.disk, v.files[i]), files := RemoveAt(v.files, i));
      FlushAllKeeps(u);
      (SyncVol(UpdateDirectory(u)), true)
    else
      var g := v.files[i].(unlinked := true);
      RecountSteady(v, i, g);
      LinkedNoMore(v.files, i, g);
      RecountClean(v.files, i, g);
      var u := v.(files := v.files[i := g]);
      FlushAllKeeps(u);
      (SyncVol(UpdateDirectory(u)), true)
  }

  lemma UnlinkLaw(v: Vol, path: seq<byte>)
    requires Inv(v) && Find(v.files, path) != -1
    ensures var i := Find(v.files, path);
            var v' := FileUnlink(v, path).0;
            v'.files == if v.files[i].refs == 0 then RemoveAt(v.files, i)
                        else v.files[i := v.files[i].(unlinked := true)]
  {
    SteadyWf(v);
    hide Steady, Linked, Dirs, SyncVol, UpdateDirectory, DirBytes;
    var i := Find(v.files, path);
    if v.files[i].refs == 0 {
      RemovedSteady(v, i);
      LinkedFewer(v.files, i);
      FlushAllKeeps(v.(disk := FreeFile(v.disk, v.files[i]), files := RemoveAt(v.files, i)));
    } else {
      var g := v.files[i].(unlinked := true);
      RecountSteady(v, i, g);
      LinkedNoMore(v.files, i, g);
      RecountClean(v.files, i, g);
      FlushAllKeeps(v.(files := v.files[i := g]));
    }
  }

  // ----- rename

  function Moved(v: Vol, i: nat, path: seq<byte>): Vol
    requires WfVol(v) && i < |v.files| && |path| <= NAME_LEN
  {
    v.(files := Added(RemoveAt(v.files, i), Renamed(v.files[i], path)))
  }

  lemma RenamedFile(f: File, path: seq<byte>)
    requires WfFile(f) && |path| <= NAME_LEN && f.hdr == EncodeChains(f.hdr, Runs(f))
    ensures var g := Renamed(f, path);
            && g.hdr == EncodeChains(g.hdr, Runs(g)) && SecCount(g.hdr) == SecCount(f.hdr) && g.hdr[EOF_AT] == f.hdr[EOF_AT]
            && Runs(g) == Runs(f) && Owns(g) == Owns(f) && Name(g) == TiName(path)
  {
    hide Slots, Walk, TiName;
    var n := TiName(path);
    var h := n + f.hdr[NAME_LEN..];
    var s := Slots(Runs(f), SAVED_CHAINS);
    assert f.hdr == f.hdr[..CHAIN_AT] + s + f.hdr[CHAIN_AT + 3 * SAVED_CHAINS..];
    assert forall i :: NAME_LEN <= i < SECTOR ==> h[i] == f.hdr[i];
    forall i | 0 <= i < SECTOR ensures EncodeChains(h, Runs(f))[i] == h[i] {
    }
  }

  lemma MovedAllocated(v: Vol, i: nat, path: seq<byte>)
    requires Steady(v) && i < |v.files| && |path| <= NAME_LEN
    ensures WfVol(v) && Allocated(v.disk, Moved(v, i, path).files)
  {
    SteadyWf(v);
    var f := v.files[i];
    var g := Renamed(f, path);
    assert EntryOk(v.disk, f);
    RenamedFile(f, path);
    assert Owned(v.disk, f);
    FreeKeeps(v.disk, v.files, i);
    DirAbove(v.disk, v.files, i);
    hide Used, Sorted, SecCount, Walk, EntriesOk, Position, Apart, FreeFile, Exact, Owns, Renamed;
    var d1 := FreeFile(v.disk, f);
    forall s | 0 <= s < MAX_SECTORS ensures Used(v.disk.vol, s) <==> Used(d1.vol, s) || s in Owns(g) {
      FreeFileUsed(v.disk, f, s);
      if s in Owns(f) {
        OwnsInRange(v.disk, f, s);
      }
    }
    forall s | s in Owns(g) ensures !Holds(RemoveAt(v.files, i), s) {
      RemoveHolds(v.files, i, s);
    }
    OwnedRenamed(v.disk, f, path);
    InsertKeeps(d1, v.disk, RemoveAt(v.files, i), Position(RemoveAt(v.files, i), Name(g)), g);
  }

  lemma OwnedRenamed(d: Disk, f: File, path: seq<byte>)
    requires Owned(d, f) && |path| <= NAME_LEN && f.hdr == EncodeChains(f.hdr, Runs(f))
    ensures WfFile(f) && Owned(d, Renamed(f, path))
  {
    hide Used, SecCount, Walk, EncodeChains;
    RenamedFile(f, path);
  }

  lemma MovedSteady(v: Vol, i: nat, path: seq<byte>)
    requires Inv(v) && i < |v.files| && |path| <= NAME_LEN
    ensures WfVol(v) && WfFiles(RemoveAt(v.files, i))
    ensures var u := Moved(v, i, path);
            var k := Position(RemoveAt(v.files, i), TiName(path));
            && Steady(u) && k < |u.files| && u.files[k] == Renamed(v.files[i], path)
            && forall j :: 0 <= j < |u.files| && j != k ==> !u.files[j].dirty
  {
    SteadyWf(v);
    hide Used, Sorted, SecCount, Walk, Apart, Exact, AllOwned, Position, EncodeChains, Synced, Linked, EntriesOk,
      UniqueInodes, Dirs;
    MovedAllocated(v, i, path);
    RemovedSorted(v.files, i);
    FileEntry(v, i);
    RenamedFile(v.files[i], path);
    var rest, g := RemoveAt(v.files, i), Renamed(v.files[i], path);
    AddedSorted(rest, g);
    RemovedEntries(v.disk, v.disk, v.files, v.next, i);
    MovedEntries(v.disk, v.files, v.next, i, path);
  }

  lemma FileEntry(v: Vol, i: nat)
    requires Steady(v) && i < |v.files|
    ensures EntryOk(v.disk, v.files[i]) && v.files[i].inode < v.next
  {
  }

  lemma MovedEntries(d: Disk, fs: seq<File>, next: nat, i: nat, path: seq<byte>)
    requires WfFiles(fs) && i < |fs| && |path| <= NAME_LEN && EntriesOk(d, fs, next) && UniqueInodes(fs) && Clean(fs)
    requires WfFiles(RemoveAt(fs, i))
    ensures var g := Renamed(fs[i], path);
            var gs := Added(RemoveAt(fs, i), g);
            && EntriesOk(d, gs, next) && UniqueInodes(gs)
            && forall j :: 0 <= j < |gs| && j != Position(RemoveAt(fs, i), Name(g)) ==> !gs[j].dirty
  {
    hide EncodeChains, Position, Walk;
    var rest, g := RemoveAt(fs, i), Renamed(fs[i], path);
    var k := Position(rest, Name(g));
    var gs := Added(rest, g);
    assert EntryOk(d, fs[i]);
    RenamedFile(fs[i], path);
    forall j | 0 <= j < |gs|
      ensures gs[j].inode < next && EntryOk(d, gs[j]) && (j != k ==> !gs[j].dirty)
    {
      if j != k {
        assert gs[j] == fs[After(i, Before(k, j))];
        assert EntryOk(d, fs[After(i, Before(k, j))]);
      }
    }
    forall a, b | 0 <= a < b < |gs| ensures gs[a].inode != gs[b].inode {
      var x, y := if a == k then i else After(i, Before(k, a)), if b == k then i else After(i, Before(k, b));
      assert x != y && gs[a].inode == fs[x].inode && gs[b].inode == fs[y].inode;
    }
  }

  lemma {:induction false} MovedLinked(fs: seq<File>, k: nat, f: File)
    requires k <= |fs|
    ensures |Linked(InsertAt(fs, k, f))| == |Linked(fs)| + if f.unlinked then 0 else 1
  {
    var gs := InsertAt(fs, k, f);
    if k == |fs| {
      assert gs[..|gs| - 1] == fs;
    } else {
      MovedLinked(fs[..|fs| - 1], k, f);
      assert gs[..|gs| - 1] == InsertAt(fs[..|fs| - 1], k, f);
    }
  }

  lemma RemoveInsert(fs: seq<File>, i: nat)
    requires i < |fs|
    ensures InsertAt(RemoveAt(fs, i), i, fs[i]) == fs
  {
  }

  lemma RenamedLinked(fs: seq<File>, i: nat, k: nat, g: File)
    requires i < |fs| && k <= |fs| - 1 && g.unlinked == fs[i].unlinked
    ensures |Linked(InsertAt(RemoveAt(fs, i), k, g))| == |Linked(fs)|
  {
    hide Linked;
    RemoveInsert(fs, i);
    MovedLinked(RemoveAt(fs, i), i, fs[i]);
    MovedLinked(RemoveAt(fs, i), k, g);
  }

  /** fileRename. */
  function FileRename(v: Vol, i: nat, path: seq<byte>): (v': Vol)
    requires Inv(v) && i < |v.files| && |path| <= NAME_LEN
    ensures Inv(v') && v'.next == v.next && |v'.disk.dev| == |v.disk.dev| && !v'.disk.changed
  {
    MovedSteady(v, i, path);
    FileEntry(v, i);
    RenamedFile(v.files[i], path);
    var k := Position(RemoveAt(v.files, i), TiName(path));
    RenamedLinked(v.files, i, k, Renamed(v.files[i], path));
    FlushKeeps(Moved(v, i, path), k);
    Flush(Moved(v, i, path), k)
  }

  lemma RenameLaw(v: Vol, i: nat, path: seq<byte>)
    requires Inv(v) && i < |v.files| && |path| <= NAME_LEN
    ensures WfFiles(RemoveAt(v.files, i)) && WfFile(v.files[i])
    ensures FileRename(v, i, path).files == Added(RemoveAt(v.files, i), Renamed(v.files[i], path).(dirty := false))
  {
    hide Steady, Linked, Dirs, SyncVol, SyncAt, UpdateDirectory, Flush, EncodeChains, Walk, SecCount, Position;
    MovedSteady(v, i, path);
    FileEntry(v, i);
    RenamedFile(v.files[i], path);
    var g := Renamed(v.files[i], path);
    var rest := RemoveAt(v.files, i);
    var k := Position(rest, TiName(path));
    RenamedLinked(v.files, i, k, g);
    FlushKeeps(Moved(v, i, path), k);
    assert InsertAt(rest, k, g)[k := g.(dirty := false)] == InsertAt(rest, k, g.(dirty := false));
  }

  // ----- write

  ghost predicate MayWrite(v: Vol, i: nat, off: nat, len: nat)
    requires Steady(v) && i < |v.files|
  {
    && Owned(v.disk, v.files[i]) && CanWrite(v.disk, v.files[i], off, len) && Regular(v.disk, v.files[i], off, len)
  }

  function FileWrite(v: Vol, i: nat, buff: seq<byte>, off: nat): (r: (Vol, nat))
    requires Inv(v) && i < |v.files| && MayWrite(v, i, off, |buff|)
    ensures Inv(r.0) && r.0.next == v.next && |r.0.files| == |v.files| && |r.0.disk.dev| == |v.disk.dev|
    ensures !r.0.disk.changed
    ensures SameIdentity(v.files[i], r.0.files[i])
    ensures forall k :: 0 <= k < |v.files| && k != i ==> r.0.files[k] == v.files[k]
  {
    var (d, f, total) := FileModel.Write(v.disk, v.files[i], buff, off);
    WrittenKeeps(v, i, buff, off);
    (Written(v, i, d, f), total)
  }

  function Written(v: Vol, i: nat, d: Disk, f: File): (r: Vol)
    requires i < |v.files|
    ensures |r.files| == |v.files| && r.files[i] == f && r.next == v.next && r.disk == d
    ensures forall k :: 0 <= k < |v.files| && k != i ==> r.files[k] == v.files[k]
  {
    v.(disk := d, files := v.files[i := f])
  }

  lemma WrittenKeeps(v: Vol, i: nat, buff: seq<byte>, off: nat)
    requires Inv(v) && i < |v.files| && MayWrite(v, i, off, |buff|)
    ensures var (d, f, total) := FileModel.Write(v.disk, v.files[i], buff, off);
            Inv(Written(v, i, d, f)) && SameIdentity(v.files[i], f) && |d.dev| == |v.disk.dev| && !d.changed
  {
    hide Used, Sorted, SecCount, Walk, Apart, Exact, AllOwned, EncodeChains, Linked, Dirs, DirBytes, FileModel.Write,
      EntriesOk,
      UniqueInodes, CanWrite, Regular, Sound, Gained, LoopBytes, Clip, Room, Synced, OnlyWrites;
    var f0 := v.files[i];
    var news := WriteLaw(v.disk, f0, buff, off);
    var (d, f, total) := FileModel.Write(v.disk, f0, buff, off);
    OwnedBasics(d, f);
    GainedSize(v.disk, d, news);
    GrowKeeps(v.disk, d, v.files, i, f, news);
    ReplacedSorted(v.files, i, f);
    WrittenEntries(v.disk, d, v.files, v.next, i, f, news);
    LinkedSame(v.files, v.files[i := f]);
    DataSectors(d, f);
    WrittenDirectory(v.disk, d, Sectors(f), f0.dir);
  }

  lemma GainedSize(d: Disk, d': Disk, news: seq<int>)
    requires WfDisk(d) && WfDisk(d') && Gained(d, d', news)
    ensures |d'.dev| == |d.dev|
  {
  }

  lemma WrittenDirectory(d: Disk, d': Disk, ss: seq<int>, dir: int)
    requires WfDisk(d) && OnlyWrites(d, d', ss + [dir, VOL_HDR_SECTOR]) && dir >= 2
    requires forall i :: 0 <= i < |ss| ==> ss[i] >= FIRST_DATA_SECTOR
    ensures d'.dev[DIR_HDR_SECTOR] == d.dev[DIR_HDR_SECTOR]
  {
  }

  lemma WrittenEntries(d: Disk, d': Disk, fs: seq<File>, next: nat, i: nat, f: File, news: seq<int>)
    requires Allocated(d, fs) && EntriesOk(d, fs, next) && UniqueInodes(fs) && Clean(fs) && i < |fs|
    requires WfDisk(d') && WfFile(f) && Gained(d, d', news) && SameIdentity(fs[i], f)
    requires Sectors(f) == Sectors(fs[i]) + news && OnlyWrites(d, d', Sectors(f) + [f.dir, VOL_HDR_SECTOR])
    requires !f.dirty && d'.dev[f.dir] == f.hdr && f.hdr == EncodeChains(f.hdr, Runs(f)) && 0 <= f.dir < |d'.dev|
    ensures EntriesOk(d', fs[i := f], next) && UniqueInodes(fs[i := f]) && Clean(fs[i := f])
  {
    hide Used, SecCount, Walk, Apart, Exact, EncodeChains, Owned, FreeCount;
    var gs := fs[i := f];
    forall k | 0 <= k < |gs| ensures gs[k].inode < next && EntryOk(d', gs[k]) && !gs[k].dirty {
      assert EntryOk(d, fs[k]);
      if k != i {
        DirsDiffer(d, fs, k, i);
        DirUsed(d, fs, k);
        assert fs[k].dir !in news;
        assert fs[k].dir !in Sectors(f) + [f.dir, VOL_HDR_SECTOR];
      }
    }
    forall a, b | 0 <= a < b < |gs| ensures gs[a].inode != gs[b].inode {
      assert gs[a].inode == fs[a].inode && gs[b].inode == fs[b].inode;
    }
  }
}
