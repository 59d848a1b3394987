/** The volume as a value: its operations and the invariant they keep. */
module VolumeModel {
  import opened Bytes
  import opened SectorMap
  import opened Chains
  import opened FileModel
  import opened FileLaws
  import opened Ownership
  import opened Directory

  datatype Vol = Vol(disk: Disk, dirHdr: seq<byte>, dirDirty: bool, files: seq<File>, next: nat)

  ghost predicate DirsOnDisk(d: Disk, fs: seq<File>) {
    forall i :: 0 <= i < |fs| ==> 0 <= fs[i].dir < |d.dev|
  }

  ghost predicate WfVol(v: Vol) {
    WfDisk(v.disk) && WfFiles(v.files) && DirsOnDisk(v.disk, v.files) && |v.dirHdr| == SECTOR
  }

  // ----- lookup

  /** Index of the first file with this path, unlinked or not; -1 if none. */
  function Find(fs: seq<File>, path: seq<byte>): (i: int)
    ensures -1 <= i < |fs|
    ensures i >= 0 ==> fs[i].osname == path
    ensures i == -1 ==> forall k :: 0 <= k < |fs| ==> fs[k].osname != path
    ensures forall k :: 0 <= k < i ==> fs[k].osname != path
  {
    FindFrom(fs, path, 0)
  }

  function FindFrom(fs: seq<File>, path: seq<byte>, from: nat): (i: int)
    requires from <= |fs| && forall k :: 0 <= k < from ==> fs[k].osname != path
    ensures -1 <= i < |fs|
    ensures i >= 0 ==> fs[i].osname == path
    ensures i == -1 ==> forall k :: 0 <= k < |fs| ==> fs[k].osname != path
    ensures forall k :: 0 <= k < i ==> fs[k].osname != path
    decreases |fs| - from
  {
    if from == |fs| then -1 else if fs[from].osname == path then from else FindFrom(fs, path, from + 1)
  }

  /** Index of a file by identity; -1 if it is not in the list. */
  function IndexOf(fs: seq<File>, inode: nat): (i: int)
    ensures -1 <= i < |fs|
    ensures i >= 0 ==> fs[i].inode == inode
    ensures i == -1 ==> forall k :: 0 <= k < |fs| ==> fs[k].inode != inode
  {
    if fs == [] then -1
    else if fs[|fs| - 1].inode == inode then |fs| - 1 else IndexOf(fs[..|fs| - 1], inode)
  }

  ghost predicate UniqueInodes(fs: seq<File>) {
    forall i, j :: 0 <= i < j < |fs| ==> fs[i].inode != fs[j].inode
  }

  // ----- flushing

  /** updateDirectory flushes the entry of every linked file. */
  function SyncLinked(d: Disk, fs: seq<File>): (r: (Disk, seq<File>))
    requires WfDisk(d) && WfFiles(fs) && DirsOnDisk(d, fs)
    ensures WfDisk(r.0) && |r.0.dev| == |d.dev| && |r.1| == |fs| && WfFiles(r.1)
  {
    if fs == [] then (d, [])
    else
      var (d1, gs) := SyncLinked(d, fs[..|fs| - 1]);
      var last := fs[|fs| - 1];
      if last.unlinked then (d1, gs + [last])
      else var (d2, f2) := SyncFile(d1, last); (d2, gs + [f2])
  }

  function UpdateDirectory(v: Vol): (r: Vol)
    requires WfVol(v) && |Linked(v.files)| <= MAX_ENTRIES
    ensures |r.disk.dev| == |v.disk.dev|
  {
    var (d, gs) := SyncLinked(v.disk, v.files);
    v.(disk := d, files := gs, dirHdr := DirBytes(Dirs(Linked(v.files))), dirDirty := true)
  }

  function SyncAt(v: Vol, i: nat): (r: Vol)
    requires WfVol(v) && i < |v.files|
    ensures |r.disk.dev| == |v.disk.dev|
  {
    var (d, f) := SyncFile(v.disk, v.files[i]);
    v.(disk := d, files := v.files[i := f])
  }

  function SyncVol(v: Vol): (r: Vol)
    requires WfVol(v)
    ensures |r.disk.dev| == |v.disk.dev| && !r.disk.changed
  {
    var d := if v.dirDirty then Patch(v.disk, DIR_HDR_SECTOR, 0, v.dirHdr) else v.disk;
    v.(disk := SyncMap(d), dirDirty := false)
  }

  // ----- the invariant

  /** A file's entry in memory is packed, and on the device unless a flush is due. */
  ghost predicate EntryOk(d: Disk, f: File) {
    && WfDisk(d) && WfFile(f) && 0 <= f.dir < |d.dev|
    && f.hdr == EncodeChains(f.hdr, Runs(f)) && (f.dirty || d.dev[f.dir] == f.hdr)
  }

  /** Holds throughout an operation once the lists are consistent. */
  ghost predicate Steady(v: Vol) {
    && Allocated(v.disk, v.files) && UniqueInodes(v.files) && Sorted(v.files) && Synced(v.disk)
    && |v.dirHdr| == SECTOR
    && EntriesOk(v.disk, v.files, v.next)
  }

  ghost predicate EntriesOk(d: Disk, fs: seq<File>, next: nat) {
    forall i :: 0 <= i < |fs| ==> fs[i].inode < next && EntryOk(d, fs[i])
  }

  ghost predicate Clean(fs: seq<File>) {
    forall i :: 0 <= i < |fs| ==> !fs[i].dirty
  }

  /** Between operations: every entry and the directory sector are on the device. */
  ghost predicate Inv(v: Vol) {
    && Steady(v) && Clean(v.files) && !v.dirDirty
    && |Linked(v.files)| <= MAX_ENTRIES && v.disk.dev[DIR_HDR_SECTOR] == DirBytes(Dirs(Linked(v.files)))
  }

  lemma SteadyWf(v: Vol)
    requires Steady(v)
    ensures WfVol(v)
  {
    hide Walk, Used, SecCount, Sorted, Apart, Exact;
    forall i | 0 <= i < |v.files| ensures 0 <= v.files[i].dir < |v.disk.dev| {
      assert Owned(v.disk, v.files[i]);
    }
  }

  lemma DirsDiffer(d: Disk, fs: seq<File>, i: nat, j: nat)
    requires Allocated(d, fs) && i < |fs| && j < |fs| && i != j
    ensures fs[i].dir != fs[j].dir && 2 <= fs[i].dir < |d.dev| && fs[i].dir !in Sectors(fs[j])
  {
    hide Walk, Used, SecCount, Exact;
    assert Owned(d, fs[i]);
    assert fs[i].dir in Owns(fs[i]);
    assert fs[i].dir !in Owns(fs[j]);
  }

  lemma SteadyOf(v: Vol)
    requires Inv(v)
    ensures Steady(v) && WfVol(v) && WfDisk(v.disk) && WfFiles(v.files) && Clean(v.files) && |Linked(v.files)| <= MAX_ENTRIES
  {
    SteadyWf(v);
    hide Steady, Linked, Dirs, DirBytes;
  }

  // ----- flushing keeps it

  lemma SyncFileFacts(d: Disk, f: File)
    requires WfDisk(d) && WfFile(f) && 2 <= f.dir < |d.dev|
    ensures var (d', f') := SyncFile(d, f);
            && WfDisk(d') && |d'.dev| == |d.dev| && d'.vol == d.vol && f' == f.(dirty := false)
            && !d'.changed && (Synced(d) ==> Synced(d'))
            && OnlyWrites(d, d', [f.dir, VOL_HDR_SECTOR])
            && d'.dev[f.dir] == (if f.dirty then f.hdr else d.dev[f.dir])
  {
  }

  /** Flushing one file, whichever. */
  lemma SyncAtKeeps(v: Vol, i: nat)
    requires Steady(v) && i < |v.files|
    ensures WfVol(v)
    ensures var v' := SyncAt(v, i);
            && Steady(v') && v'.files == v.files[i := Cleaned(v.files[i], true)]
            && v' == v.(disk := v'.disk, files := v'.files)
  {
    SteadyWf(v);
    hide Walk, Used, SecCount, Sorted, Apart, Exact, EntriesOk, SyncFile, Synced, OnlyWrites, Owned;
    var f := v.files[i];
    DirAbove(v.disk, v.files, i);
    SyncFileFacts(v.disk, f);
    SameKeeps(v.disk, SyncAt(v, i).disk, v.files, i, Cleaned(f, true));
    ReplacedSorted(v.files, i, Cleaned(f, true));
    SyncedEntries(v.disk, SyncAt(v, i).disk, v.files, v.next, i);
  }

  lemma SyncedEntries(d: Disk, d': Disk, fs: seq<File>, next: nat, i: nat)
    requires Allocated(d, fs) && EntriesOk(d, fs, next) && i < |fs| && WfDisk(d') && |d'.dev| == |d.dev|
    requires OnlyWrites(d, d', [fs[i].dir, VOL_HDR_SECTOR])
    requires d'.dev[fs[i].dir] == (if fs[i].dirty then fs[i].hdr else d.dev[fs[i].dir])
    ensures EntriesOk(d', fs[i := Cleaned(fs[i], true)], next)
  {
    hide Walk, Used, SecCount, Apart, Exact, EncodeChains, Owned, OnlyWrites;
    var gs := fs[i := Cleaned(fs[i], true)];
    forall k | 0 <= k < |gs| ensures gs[k].inode < next && EntryOk(d', gs[k]) {
      assert EntryOk(d, fs[k]);
      if k != i {
        DirsDiffer(d, fs, k, i);
        OtherSector(d, d', fs[i].dir, fs[k].dir);
      }
    }
  }

  lemma OtherSector(d: Disk, d': Disk, dir: int, s: int)
    requires OnlyWrites(d, d', [dir, VOL_HDR_SECTOR]) && 0 <= s < |d.dev| && s != dir && s != VOL_HDR_SECTOR
    ensures d'.dev[s] == d.dev[s]
  {
  }

  function Cleaned(f: File, yes: bool): File {
    if yes then f.(dirty := false) else f
  }

  /** gs is fs with the linked files among the first n marked flushed. */
  ghost predicate CleanedUpTo(fs: seq<File>, gs: seq<File>, n: nat) {
    && |gs| == |fs|
    && forall k :: 0 <= k < |fs| ==> gs[k] == Cleaned(fs[k], k < n && !fs[k].unlinked)
  }

  /** The volume with the first n linked files flushed. */
  function SyncedUpTo(v: Vol, n: nat): (r: Vol)
    requires WfVol(v) && n <= |v.files|
  {
    var (d, gs) := SyncLinked(v.disk, v.files[..n]);
    v.(disk := d, files := gs + v.files[n..])
  }

  lemma {:induction false} SyncLinkedKeeps(v: Vol, n: nat)
    requires Steady(v) && n <= |v.files|
    ensures WfVol(v)
    ensures var v' := SyncedUpTo(v, n);
            && Steady(v') && CleanedUpTo(v.files, v'.files, n) && v' == v.(disk := v'.disk, files := v'.files)
    decreases n
  {
    SteadyWf(v);
    hide Steady, SyncFile, SyncLinked, SyncedUpTo, WfVol, CleanedUpTo, SyncAt;
    if n == 0 {
      NothingSynced(v);
      CleanedNone(v.files);
    } else {
      SyncLinkedKeeps(v, n - 1);
      var u := SyncedUpTo(v, n - 1);
      SteadyWf(u);
      CleanedNext(v.files, u.files, n);
      OneMoreSynced(v, n);
      if !v.files[n - 1].unlinked {
        SyncAtKeeps(u, n - 1);
      }
    }
  }

  lemma CleanedNone(fs: seq<File>)
    ensures CleanedUpTo(fs, fs, 0)
  {
  }

  lemma CleanedNext(fs: seq<File>, us: seq<File>, n: nat)
    requires 0 < n <= |fs| && CleanedUpTo(fs, us, n - 1)
    ensures |us| == |fs| && us[n - 1] == fs[n - 1]
    ensures fs[n - 1].unlinked ==> CleanedUpTo(fs, us, n)
    ensures !fs[n - 1].unlinked ==> CleanedUpTo(fs, us[n - 1 := Cleaned(us[n - 1], true)], n)
  {
  }

  lemma NothingSynced(v: Vol)
    requires WfVol(v)
    ensures SyncedUpTo(v, 0) == v
  {
    assert v.files[..0] == [] && [] + v.files[0..] == v.files;
  }

  lemma OneMoreSynced(v: Vol, n: nat)
    requires WfVol(v) && 0 < n <= |v.files| && WfVol(SyncedUpTo(v, n - 1))
    requires SyncedUpTo(v, n - 1).files[n - 1] == v.files[n - 1] && |SyncedUpTo(v, n - 1).files| == |v.files|
    ensures SyncedUpTo(v, n) == if v.files[n - 1].unlinked then SyncedUpTo(v, n - 1) else SyncAt(SyncedUpTo(v, n - 1), n - 1)
  {
    hide SyncFile, WfDisk;
    var (d, gs) := SyncLinked(v.disk, v.files[..n - 1]);
    assert v.files[..n][..n - 1] == v.files[..n - 1];
    var u := SyncedUpTo(v, n - 1);
    assert u.files == gs + v.files[n - 1..];
    if v.files[n - 1].unlinked {
      assert gs + [v.files[n - 1]] + v.files[n..] == u.files;
    } else {
      var f2 := SyncFile(d, v.files[n - 1]).1;
      assert gs + [f2] + v.files[n..] == u.files[n - 1 := f2];
    }
  }

  lemma {:induction false} LinkedSame(fs: seq<File>, gs: seq<File>)
    requires |fs| == |gs|
    requires forall k :: 0 <= k < |fs| ==> gs[k].dir == fs[k].dir && gs[k].unlinked == fs[k].unlinked
    ensures |Linked(gs)| == |Linked(fs)| && Dirs(Linked(gs)) == Dirs(Linked(fs))
  {
    if fs != [] {
      LinkedSame(fs[..|fs| - 1], gs[..|gs| - 1]);
    }
  }

  lemma CleanedLinked(fs: seq<File>, gs: seq<File>, n: nat)
    requires CleanedUpTo(fs, gs, n)
    ensures |Linked(gs)| == |Linked(fs)| && Dirs(Linked(gs)) == Dirs(Linked(fs))
  {
    hide Linked, Dirs;
    LinkedSame(fs, gs);
  }

  ghost predicate Updated(v: Vol, v': Vol) {
    && Steady(v') && v'.dirDirty && v'.next == v.next && CleanedUpTo(v.files, v'.files, |v.files|)
    && |Linked(v'.files)| <= MAX_ENTRIES && v'.dirHdr == DirBytes(Dirs(Linked(v'.files)))
  }

  lemma UpdateKeeps(v: Vol)
    requires Steady(v) && |Linked(v.files)| <= MAX_ENTRIES
    ensures WfVol(v) && Updated(v, UpdateDirectory(v))
  {
    SteadyWf(v);
    hide UpdateDirectory, Linked, Dirs, Steady, WfVol, CleanedUpTo, DirBytes, SyncedUpTo;
    SyncLinkedKeeps(v, |v.files|);
    var u := SyncedUpTo(v, |v.files|);
    AllSynced(v);
    CleanedLinked(v.files, u.files, |v.files|);
    SteadyHdr(u, DirBytes(Dirs(Linked(v.files))));
  }

  lemma SteadyHdr(v: Vol, hdr: seq<byte>)
    requires Steady(v) && |hdr| == SECTOR
    ensures Steady(v.(dirHdr := hdr, dirDirty := true))
  {
    hide Allocated, UniqueInodes, Sorted, Synced, EntriesOk;
  }

  lemma AllSynced(v: Vol)
    requires WfVol(v) && |Linked(v.files)| <= MAX_ENTRIES
    ensures var u := SyncedUpTo(v, |v.files|);
            UpdateDirectory(v) == u.(dirHdr := DirBytes(Dirs(Linked(v.files))), dirDirty := true)
  {
    hide SyncLinked, Linked, Dirs, DirBytes;
    assert v.files[..|v.files|] == v.files;
    var (d, gs) := SyncLinked(v.disk, v.files);
    assert gs + v.files[|v.files|..] == gs;
  }

  lemma SyncVolKeeps(v: Vol)
    requires Steady(v) && Clean(v.files) && v.dirDirty && |Linked(v.files)| <= MAX_ENTRIES
    requires v.dirHdr == DirBytes(Dirs(Linked(v.files)))
    ensures WfVol(v) && Inv(SyncVol(v)) && SyncVol(v).files == v.files && SyncVol(v).next == v.next
  {
    SteadyWf(v);
    hide Walk, Used, SecCount, Sorted, Apart, Exact, EntriesOk, Linked, Dirs, DirBytes, Owned, AllOwned, UniqueInodes,
      Clean;
    hide Allocated, Synced, OnlyWrites, SyncVol;
    var v' := SyncVol(v);
    SyncVolDisk(v);
    DeviceKeeps(v.disk, v'.disk, v.files);
    SystemEntries(v.disk, v'.disk, v.files, v.next);
  }

  lemma SyncVolDisk(v: Vol)
    requires WfVol(v) && v.dirDirty && Synced(v.disk)
    ensures var v' := SyncVol(v);
            && v' == v.(disk := v'.disk, dirDirty := false)
            && WfDisk(v'.disk) && v'.disk.vol == v.disk.vol && |v'.disk.dev| == |v.disk.dev| && Synced(v'.disk)
            && OnlyWrites(v.disk, v'.disk, [DIR_HDR_SECTOR, VOL_HDR_SECTOR]) && v'.disk.dev[DIR_HDR_SECTOR] == v.dirHdr
  {
    hide WfFiles, DirsOnDisk;
    assert v.dirHdr == v.disk.dev[1][..0] + v.dirHdr + v.disk.dev[1][|v.dirHdr|..];
  }

  lemma SystemEntries(d: Disk, d': Disk, fs: seq<File>, next: nat)
    requires Allocated(d, fs) && EntriesOk(d, fs, next) && WfDisk(d') && |d'.dev| == |d.dev|
    requires OnlyWrites(d, d', [DIR_HDR_SECTOR, VOL_HDR_SECTOR])
    ensures EntriesOk(d', fs, next)
  {
    hide Walk, Used, SecCount, Apart, Exact, EncodeChains, Owned;
    forall k | 0 <= k < |fs| ensures fs[k].inode < next && EntryOk(d', fs[k]) {
      assert EntryOk(d, fs[k]);
      DirAbove(d, fs, k);
    }
  }

  lemma DirAbove(d: Disk, fs: seq<File>, k: nat)
    requires Allocated(d, fs) && k < |fs|
    ensures 2 <= fs[k].dir < |d.dev|
  {
    assert Owned(d, fs[k]);
  }

  /** What create, rename and unlink end with: directory, then this file, then the volume. */
  function Flush(v: Vol, i: nat): (r: Vol)
    requires WfVol(v) && |Linked(v.files)| <= MAX_ENTRIES && i < |v.files|
    requires WfVol(UpdateDirectory(v)) && WfVol(SyncAt(UpdateDirectory(v), i))
    ensures |r.disk.dev| == |v.disk.dev| && !r.disk.changed
  {
    SyncVol(SyncAt(UpdateDirectory(v), i))
  }

  lemma FlushKeeps(v: Vol, i: nat)
    requires Steady(v) && |Linked(v.files)| <= MAX_ENTRIES && i < |v.files|
    requires forall k :: 0 <= k < |v.files| && k != i ==> !v.files[k].dirty
    ensures WfVol(v) && WfVol(UpdateDirectory(v)) && WfVol(SyncAt(UpdateDirectory(v), i))
    ensures var v' := Flush(v, i);
            && Inv(v') && v'.next == v.next && v'.files == v.files[i := Cleaned(v.files[i], true)]
  {
    SteadyWf(v);
    hide Steady, SyncLinked, Linked, Dirs, SyncFile, WfVol, UpdateDirectory, DirBytes, SyncAt, SyncVol, Inv,
      CleanedUpTo, Clean;
    UpdateKeeps(v);
    var u := UpdateDirectory(v);
    CleanedSize(v.files, u.files);
    SyncAtKeeps(u, i);
    var w := SyncAt(u, i);
    FlushedFiles(v.files, u.files, i);
    SteadyWf(u);
    SteadyWf(w);
    SyncVolKeeps(w);
  }

  lemma CleanedSize(fs: seq<File>, us: seq<File>)
    requires CleanedUpTo(fs, us, |fs|)
    ensures |us| == |fs|
  {
  }

  lemma FlushedFiles(fs: seq<File>, us: seq<File>, i: nat)
    requires CleanedUpTo(fs, us, |fs|) && i < |fs|
    requires forall k :: 0 <= k < |fs| && k != i ==> !fs[k].dirty
    ensures us[i := Cleaned(us[i], true)] == fs[i := Cleaned(fs[i], true)]
    ensures Clean(us[i := Cleaned(us[i], true)])
    ensures |Linked(us[i := Cleaned(us[i], true)])| == |Linked(us)|
    ensures Dirs(Linked(us[i := Cleaned(us[i], true)])) == Dirs(Linked(us))
  {
    hide Linked, Dirs;
    var ws := us[i := Cleaned(us[i], true)];
    LinkedSame(us, ws);
    forall k | 0 <= k < |fs| ensures ws[k] == fs[i := Cleaned(fs[i], true)][k] {
    }
  }

  lemma FlushAllKeeps(v: Vol)
    requires Steady(v) && |Linked(v.files)| <= MAX_ENTRIES && Clean(v.files)
    ensures WfVol(v) && WfVol(UpdateDirectory(v))
    ensures var v' := SyncVol(UpdateDirectory(v)); Inv(v') && v'.next == v.next && v'.files == v.files
  {
    SteadyWf(v);
    hide Steady, SyncLinked, Linked, Dirs, SyncFile, WfVol, UpdateDirectory, DirBytes, SyncVol, Inv;
    UpdateKeeps(v);
    var u := UpdateDirectory(v);
    AlreadyClean(v.files, u.files);
    SteadyWf(u);
    SyncVolKeeps(u);
  }

  lemma AlreadyClean(fs: seq<File>, us: seq<File>)
    requires CleanedUpTo(fs, us, |fs|) && Clean(fs)
    ensures us == fs
  {
    forall k | 0 <= k < |fs| ensures us[k] == fs[k] {
    }
  }

  lemma OwnedIn(v: Vol)
    requires Inv(v)
    ensures WfDisk(v.disk) && WfFiles(v.files) && AllOwned(v.disk, v.files) && Allocated(v.disk, v.files)
  {
    hide Allocated, UniqueInodes, Sorted, Synced, EntriesOk, Linked, DirBytes;
    Parts(v);
  }

  lemma Parts(v: Vol)
    requires Allocated(v.disk, v.files)
    ensures WfDisk(v.disk) && WfFiles(v.files) && AllOwned(v.disk, v.files)
  {
    hide AllOwned, Apart, Exact;
  }

  lemma OwnedOne(v: Vol, j: nat)
    requires AllOwned(v.disk, v.files) && j < |v.files|
    ensures Owned(v.disk, v.files[j]) && Sound(v.disk, v.files[j])
  {
  }
}
