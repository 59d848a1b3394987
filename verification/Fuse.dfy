/** The FUSE callbacks over the linked list of free handles, each tied to one step of the mount. */
module Fuse {
  import opened Bytes
  import opened SectorMap
  import opened Chains
  import opened FileModel
  import opened FileLaws
  import opened Ownership
  import opened Directory
  import opened VolumeModel
  import opened VolumeOps
  import opened FuseModel
  import opened FuseRuns
  import opened FileContents
  import opened FileHistory
  import opened DiskFiles
  import opened DiskVolumes

  ghost predicate NextIs(next: seq<Option<nat>>, free: seq<nat>, k: nat)
    requires k < |free|
  {
    free[k] < |next| && next[free[k]] == if k + 1 < |free| then Some(free[k + 1]) else None
  }

  /** The list that starts at head and goes on through next is free. */
  ghost predicate Chained(next: seq<Option<nat>>, head: Option<nat>, free: seq<nat>) {
    && head == (if free == [] then None else Some(free[0]))
    && forall k :: 0 <= k < |free| ==> NextIs(next, free, k)
  }

  ghost function Handles(file: seq<DiskFile?>): (hs: seq<Option<nat>>)
    ensures |hs| == |file| && forall h :: 0 <= h < |file| ==> hs[h] == Opened(file[h])
  {
    seq(|file|, h requires 0 <= h < |file| => Opened(file[h]))
  }

  /** Every handle in use points at an object of the list. */
  ghost predicate Points(file: seq<DiskFile?>, files: seq<DiskFile>) {
    forall h :: 0 <= h < |file| && file[h] != null ==> file[h] in files
  }

  class Mount {
    const volume: DiskVolume
    const next: array<Option<nat>>
    const file: array<DiskFile?>
    var head: Option<nat>
    ghost var free: seq<nat>

    ghost function S(): Fs
      reads this, file, volume, volume.files, volume.sectors, volume.sectors.volHdr, volume.sectors.device
    {
      Fs(volume.M(), free, Handles(file[..]))
    }

    ghost predicate Valid()
      reads this, next, file, volume, volume.files, volume.sectors, volume.sectors.volHdr, volume.sectors.device
    {
      && volume.Valid() && next.Length == file.Length == HANDLES && Chained(next[..], head, free)
      && Points(file[..], volume.files) && FsInv(S())
    }

    /** tidsk_init: the last handle's next pointer is still the null it was loaded with. */
    constructor (volume: DiskVolume)
      requires volume.Valid() && Inv(volume.M()) && Unheld(volume.M().files)
      ensures Valid() && this.volume == volume && fresh(next) && fresh(file)
      ensures S() == Mounted(volume.M())
    {
      hide Inv, FsInv, Chained, Unheld, Mounted, DiskVolume.Valid;
      this.volume := volume;
      next := new Option<nat>[HANDLES](i => None);
      file := new DiskFile?[HANDLES](i => null);
      head := Some(0);
      free := seq(HANDLES, i => i);
      new;
      Start();
    }

    method Start()
      requires volume.Valid() && Inv(volume.M()) && Unheld(volume.M().files) && next.Length == file.Length == HANDLES
      requires next[HANDLES - 1] == None && head == Some(0) && free == seq(HANDLES, i => i)
      requires forall h :: 0 <= h < HANDLES ==> file[h] == null
      modifies next
      ensures Valid() && S() == Mounted(volume.M())
    {
      hide Inv, FsInv, Chained, Unheld, DiskVolume.Valid;
      LinkAll();
      MountKeeps(volume.M());
      assert S().file == Mounted(volume.M()).file;
    }

    /** The loop of tidsk_init. */
    method LinkAll()
      requires next.Length == HANDLES && next[HANDLES - 1] == None
      modifies next
      ensures Chained(next[..], Some(0), seq(HANDLES, i => i))
    {
      for i := 0 to HANDLES - 1
        invariant next[HANDLES - 1] == None
        invariant forall k :: 0 <= k < i ==> next[k] == Some(k + 1)
      {
        next[i] := Some(i + 1);
      }
    }

    /** Take the head of the list for a file. */
    method Take(f: DiskFile) returns (fh: nat)
      requires next.Length == file.Length == HANDLES && Chained(next[..], head, free) && head != None
      requires PoolOk(free, Handles(file[..]))
      modifies this, file
      ensures Chained(next[..], head, free) && old(free) != [] && fh == old(free)[0] && free == old(free)[1..]
      ensures fh < HANDLES && file[..] == old(file[..])[fh := f]
      ensures Handles(file[..]) == Handles(old(file[..]))[fh := Some(f.inode)]
      ensures old(file[..])[fh] == null
    {
      TakeHandle(free, Handles(file[..]), f.inode);
      assert NextIs(next[..], free, 0);
      fh := head.value;
      TakeNext(next[..], head, free);
      head := next[fh];
      file[fh] := f;
      free := free[1..];
    }

    /** tidsk_create. table and dirty are what the new object's fields happen to hold. */
    method Create(path: seq<byte>, table: seq<Chain>, dirty: bool) returns (status: Status, fh: nat)
      requires Valid() && Allowed(S(), Event.Create(path, table))
      modifies this, file, volume, volume.files, volume.sectors`bitmapChanged, volume.sectors.volHdr, volume.sectors.device
      ensures Valid() && S() == FsCreate(old(S()), path, table)
      ensures status == Ok ==> old(free) != [] && fh == old(free)[0] && old(file[..])[fh] == null && file[fh] != null
      ensures status != Ok ==> S().file == old(S().file)
    {
      hide FsInv, Inv, FsCreate, Chained, Linked, VolumeOps.FileCreate, PoolOk, Points, Joins, Handles, DiskVolume.Valid,
        Values, Find, Different;
      ghost var s, fs := S(), volume.files;
      InvOf(s);
      CreateKeeps(s, path, table);
      CreateStepIs(s, path, table);
      fh := 0;
      var f, _ := volume.FileAccess(path);
      if f != null {
        return NoAccess, 0;
      }
      HeadIs(next[..], head, free);
      if head == None {
        return BadFile, 0;
      }
      var g := volume.FileCreate(path, table, dirty);
      if g == null {
        return NoAccess, 0;
      }
      ghost var was := file[..];
      fh := Take(g);
      PointsTaken(was, fs, volume.files, fh, g);
      status := Ok;
    }

    /** tidsk_open. */
    method Open(path: seq<byte>) returns (status: Status, fh: nat)
      requires Valid()
      modifies this, file, volume.files
      ensures Valid() && S() == FsOpen(old(S()), path)
      ensures status == Ok ==> old(free) != [] && fh == old(free)[0] && old(file[..])[fh] == null && file[fh] != null
      ensures status != Ok ==> S() == old(S())
    {
      hide FsInv, Inv, Chained, VolumeOps.FileOpen, PoolOk, Points, Handles, DiskVolume.Valid, Values, Find, Different;
      ghost var s, fs := S(), volume.files;
      InvOf(s);
      OpenKeeps(s, path);
      fh := 0;
      HeadIs(next[..], head, free);
      if head == None {
        return BadFile, 0;
      }
      var g, i := volume.FileOpen(path);
      if g == null {
        NotOpened(s.vol, path);
        return NoAccess, 0;
      }
      ghost var was := file[..];
      fh := Take(g);
      PointsOpened(was, fs, fh, g);
      assert S() == FsOpen(s, path);
      status := Ok;
    }

    /** tidsk_release. */
    method Release(fh: nat)
      requires Valid() && fh < HANDLES && S().file[fh].Some?
      modifies this, next, file, volume`files, volume`fileCount, volume.files,
        volume.sectors`bitmapChanged, volume.sectors.volHdr
      ensures Valid() && S() == FsRelease(old(S()), fh)
    {
      hide FsInv, Inv, Chained, VolumeOps.FileClose, PoolOk, Values, Points, Handles, Different;
      ghost var s, fs, was := S(), volume.files, file[..];
      InvOf(s);
      ReleaseKeeps(s, fh);
      HeldRefs(s, fh);
      HeldIs(s, was, fs, fh);
      volume.FileClose(file[fh], Held(s, fh));
      Give(fh);
      PointsClosed(s, fh, was, fs, volume.files);
    }

    /** Put a handle back at the head of the list. */
    method Give(fh: nat)
      requires next.Length == file.Length == HANDLES && Chained(next[..], head, free)
      requires PoolOk(free, Handles(file[..])) && fh < HANDLES && file[fh] != null
      modifies this, next, file
      ensures Chained(next[..], head, free) && free == [fh] + old(free) && file[..] == old(file[..])[fh := null]
      ensures Handles(file[..]) == Handles(old(file[..]))[fh := None]
    {
      hide Chained, PoolOk;
      GiveNext(next[..], head, free, Handles(file[..]), fh);
      HandlesGiven(file[..], fh);
      next[fh] := head;
      file[fh] := null;
      head := Some(fh);
      free := [fh] + free;
    }

    /** tidsk_rename: what fileOpen counts is never given back. */
    method Rename(from: seq<byte>, to: seq<byte>) returns (status: Status)
      requires Valid() && |to| <= NAME_LEN
      modifies volume, volume.files, volume.sectors`bitmapChanged, volume.sectors.volHdr, volume.sectors.device
      ensures Valid() && S() == FsRename(old(S()), from, to)
      ensures status == if Find(old(S()).vol.files, from) == -1 then NoAccess else Ok
    {
      hide FsInv, Inv, Chained, VolumeOps.FileRename, PoolOk, Values, Points, Handles, Different, SameFiles, Leaked,
        DiskVolume.Valid;
      ghost var s, fs := S(), volume.files;
      InvOf(s);
      RenameKeeps(s, from, to);
      var f, i := Leak(from);
      if f == null {
        return NoAccess;
      }
      LeakKeeps(s.vol, i);
      volume.FileRename(f, to, i);
      PointsSame(file[..], fs, volume.files);
      status := Ok;
    }

    /** The open that rename never closes. */
    method Leak(from: seq<byte>) returns (f: DiskFile?, ghost i: int)
      requires volume.Valid() && Inv(volume.M())
      modifies volume.files
      ensures volume.Valid() && volume.files == old(volume.files) && i == Find(old(volume.M()).files, from)
      ensures if i == -1 then f == null && volume.M() == old(volume.M())
              else f == volume.files[i] && volume.M() == Leaked(old(volume.M()), i)
    {
      hide Inv, VolumeOps.FileOpen, Values, DiskVolume.Valid, Leaked, WithLeak, Find;
      ghost var v := volume.M();
      NotOpened(v, from);
      f, i := volume.FileOpen(from);
      if f != null {
        OpenedIs(v, from);
        LeakedAfterOpen(v, i);
        CountLeak(f, i);
      }
    }

    ghost method CountLeak(f: DiskFile, i: nat)
      requires volume.Valid() && i < |volume.files| && volume.files[i] == f
      modifies f`leaked
      ensures volume.Valid()
      ensures i < |old(volume.M().files)| && volume.M() == WithLeak(old(volume.M()), i)
    {
      hide Values;
      ghost var w := volume.M();
      f.leaked := f.leaked + 1;
      assert volume.M().files == w.files[i := f.V()];
    }

    /** tidsk_unlink. */
    method Unlink(path: seq<byte>) returns (status: Status)
      requires Valid()
      modifies volume, volume.files, volume.sectors`bitmapChanged, volume.sectors.volHdr, volume.sectors.device
      ensures Valid() && S() == FsUnlink(old(S()), path)
      ensures status == if Find(old(S()).vol.files, path) == -1 then NoAccess else Ok
    {
      hide FsInv, Inv, Chained, VolumeOps.FileUnlink, PoolOk, Values, Points, Handles, Different;
      ghost var s, fs := S(), volume.files;
      InvOf(s);
      UnlinkKeeps(s, path);
      var ok := volume.FileUnlink(path);
      PointsUnlinked(s, file[..], fs, volume.files, path);
      status := if ok then Ok else NoAccess;
    }

    /** tidsk_write on an open handle. */
    method Write(fh: nat, buff: seq<byte>, off: nat) returns (total: nat)
      requires Valid() && fh < HANDLES && Allowed(S(), Event.Write(fh, buff, off))
      modifies volume.files, volume.sectors`bitmapChanged, volume.sectors.volHdr, volume.sectors.device
      ensures Valid() && (S(), total) == FsWrite(old(S()), fh, buff, off)
    {
      hide FsInv, Inv, Chained, VolumeOps.FileWrite, FileModel.Write, PoolOk, Values, Points, Handles, Different,
        MayWrite;
      ghost var s, fs := S(), volume.files;
      InvOf(s);
      WriteKeeps(s, fh, buff, off);
      HeldIs(s, file[..], fs, fh);
      WriteIsStep(s.vol, Held(s, fh), buff, off);
      total := file[fh].Write(buff, off);
      assert volume.M().files == s.vol.files[Held(s, fh) := file[fh].V()];
    }

    /** tidsk_read through a handle. */
    method Read(fh: nat, buff: array<byte>, off: nat, size: nat) returns (total: nat)
      requires Valid() && fh < HANDLES && S().file[fh].Some? && size <= buff.Length && buff != volume.sectors.volHdr
      modifies buff
      ensures Valid() && S() == old(S()) && total <= size
      ensures buff[total..] == old(buff[total..])
      ensures var f := S().vol.files[Held(S(), fh)];
              && WfDisk(S().vol.disk) && WfFile(f) && InRange(S().vol.disk, Sectors(f))
              && buff[..total] == ReadSlice(S().vol.disk, f, off, size)
      ensures forall b :: Contains(S().vol, S().file[fh].value, b) && off + size <= |b| ==> buff[..total] == b[off..off + size]
    {
      hide FsInv, Inv, Chained, PoolOk, Values, Points, Handles, Different, Contains, ReadSlice, Sectors;
      ghost var s := S();
      InvOf(s);
      HeldIs(s, file[..], volume.files, fh);
      ghost var i := Held(s, fh);
      ReadableFile(s.vol, i);
      total := file[fh].Read(buff, off, size);
      forall b | Contains(s.vol, s.file[fh].value, b) && off + size <= |b| ensures buff[..total] == b[off..off + size] {
        ReadsWithin(s.vol, i, b, off, size);
      }
    }
  }

  lemma ReadableFile(v: Vol, i: nat)
    requires Inv(v) && i < |v.files|
    ensures WfDisk(v.disk) && WfFile(v.files[i]) && Proper(Runs(v.files[i])) && InRange(v.disk, Sectors(v.files[i]))
  {
    OwnedIn(v);
    OwnedOne(v, i);
  }

  /** What a create step comes to. */
  lemma CreateStepIs(s: Fs, path: seq<byte>, table: seq<Chain>)
    requires FsInv(s) && Allowed(s, Event.Create(path, table))
    ensures Inv(s.vol)
    ensures Find(s.vol.files, path) != -1 || s.free == [] ==> FsCreate(s, path, table) == s
    ensures Find(s.vol.files, path) == -1 && s.free != [] ==>
              var (v, r) := VolumeOps.FileCreate(s.vol, path, table);
              && s.free[0] < |s.file|
              && FsCreate(s, path, table)
                 == if r == None then s.(vol := v) else Fs(v, s.free[1..], s.file[s.free[0] := r])
  {
    hide Inv, AllRefsOk, HandlesLive, VolumeOps.FileCreate, Find, Linked;
  }

  lemma NotOpened(v: Vol, path: seq<byte>)
    requires Inv(v)
    ensures Find(v.files, path) == -1 ==> VolumeOps.FileOpen(v, path) == (v, None)
  {
    hide Inv;
  }

  lemma OpenedIs(v: Vol, path: seq<byte>)
    requires Inv(v) && Find(v.files, path) != -1
    ensures var i := Find(v.files, path);
            VolumeOps.FileOpen(v, path).0 == v.(files := v.files[i := v.files[i].(refs := v.files[i].refs + 1)])
  {
    hide Inv;
  }

  function WithLeak(v: Vol, i: nat): Vol
    requires i < |v.files|
  {
    v.(files := v.files[i := v.files[i].(leaked := v.files[i].leaked + 1)])
  }

  lemma LeakedAfterOpen(v: Vol, i: nat)
    requires i < |v.files|
    ensures WithLeak(v.(files := v.files[i := v.files[i].(refs := v.files[i].refs + 1)]), i) == Leaked(v, i)
  {
  }

  lemma WriteIsStep(v: Vol, i: nat, buff: seq<byte>, off: nat)
    requires Inv(v) && i < |v.files| && MayWrite(v, i, off, |buff|)
    ensures CanWrite(v.disk, v.files[i], off, |buff|)
    ensures var (d, f, total) := FileModel.Write(v.disk, v.files[i], buff, off);
            VolumeOps.FileWrite(v, i, buff, off) == (v.(disk := d, files := v.files[i := f]), total)
  {
    hide Inv, FileModel.Write, CanWrite, Regular, Owned;
  }

  lemma HeldIs(s: Fs, file: seq<DiskFile?>, files: seq<DiskFile>, h: nat)
    requires FsInv(s) && h < HANDLES && s.file[h].Some? && s.file == Handles(file) && Points(file, files)
    requires |files| == |s.vol.files| && forall i :: 0 <= i < |files| ==> files[i].inode == s.vol.files[i].inode
    ensures Held(s, h) < |files| && h < |file| && file[h] == files[Held(s, h)]
  {
    hide Inv;
    UniqueIn(s.vol);
    var j :| 0 <= j < |files| && files[j] == file[h];
    assert s.vol.files[j].inode == s.vol.files[Held(s, h)].inode;
  }

  lemma PointsTaken(was: seq<DiskFile?>, fs: seq<DiskFile>, fs': seq<DiskFile>, h: nat, g: DiskFile)
    requires Points(was, fs) && Joins(fs, fs', g) && h < |was|
    ensures Points(was[h := g], fs')
  {
  }

  lemma PointsOpened(was: seq<DiskFile?>, fs: seq<DiskFile>, h: nat, g: DiskFile)
    requires Points(was, fs) && g in fs && h < |was|
    ensures Points(was[h := g], fs)
  {
  }

  lemma PointsSame(file: seq<DiskFile?>, fs: seq<DiskFile>, fs': seq<DiskFile>)
    requires Points(file, fs) && SameFiles(fs, fs')
    ensures Points(file, fs')
  {
    forall h | 0 <= h < |file| && file[h] != null ensures file[h] in fs' {
      var i :| 0 <= i < |fs| && fs[i] == file[h];
    }
  }

  /** No handle pointed at the file that went: its identity is gone from the list. */
  lemma PointsWithout(file: seq<DiskFile?>, fs: seq<DiskFile>, i: nat, vs: seq<File>)
    requires Points(file, fs) && i < |fs| && HandlesLive(vs, Handles(file)) && !Live(vs, fs[i].inode)
    ensures Points(file, WithoutFile(fs, i))
  {
    forall h | 0 <= h < |file| && file[h] != null ensures file[h] in WithoutFile(fs, i) {
      assert Live(vs, Handles(file)[h].value);
      RemovedFiles(fs, i);
    }
  }

  lemma PointsClosed(s: Fs, h: nat, file: seq<DiskFile?>, fs: seq<DiskFile>, fs': seq<DiskFile>)
    requires FsInv(s) && h < HANDLES == |file| && s.file[h].Some? && FsInv(FsRelease(s, h))
    requires s.file == Handles(file) && Points(file, fs)
    requires |fs| == |s.vol.files| && fs[Held(s, h)].inode == s.vol.files[Held(s, h)].inode
    requires fs' == if s.vol.files[Held(s, h)].unlinked && s.vol.files[Held(s, h)].refs == 1 then WithoutFile(fs, Held(s, h)) else fs
    ensures Points(file[h := null], fs')
  {
    hide Inv, PoolOk, AllRefsOk, Live, FileClose, Handles;
    var i := Held(s, h);
    HandlesGiven(file, h);
    ReleaseFiles(s, h);
    if s.vol.files[i].unlinked && s.vol.files[i].refs == 1 {
      UniqueIn(s.vol);
      RemoveLive(s.vol.files, i, fs[i].inode);
      PointsWithout(file[h := null], fs, i, RemoveAt(s.vol.files, i));
    }
  }

  lemma PointsUnlinked(s: Fs, file: seq<DiskFile?>, fs: seq<DiskFile>, fs': seq<DiskFile>, path: seq<byte>)
    requires FsInv(s) && FsInv(FsUnlink(s, path)) && s.file == Handles(file) && Points(file, fs)
    requires |fs| == |s.vol.files| && forall i :: 0 <= i < |fs| ==> fs[i].inode == s.vol.files[i].inode
    requires var i := Find(s.vol.files, path);
             fs' == if i != -1 && s.vol.files[i].refs == 0 then WithoutFile(fs, i) else fs
    ensures Points(file, fs')
  {
    hide Inv, PoolOk, AllRefsOk, Live, VolumeOps.FileUnlink, Handles;
    UnlinkFiles(s, path);
    var i := Find(s.vol.files, path);
    if i != -1 && s.vol.files[i].refs == 0 {
      UniqueIn(s.vol);
      RemoveLive(s.vol.files, i, fs[i].inode);
      PointsWithout(file, fs, i, RemoveAt(s.vol.files, i));
    }
  }

  lemma GiveNext(next: seq<Option<nat>>, head: Option<nat>, free: seq<nat>, file: seq<Option<nat>>, h: nat)
    requires Chained(next, head, free) && PoolOk(free, file) && h < HANDLES == |next| && file[h].Some?
    ensures Chained(next[h := head], Some(h), [h] + free)
  {
    var next', free' := next[h := head], [h] + free;
    forall k | 0 <= k < |free'| ensures NextIs(next', free', k) {
      if k > 0 {
        assert NextIs(next, free, k - 1);
        assert free[k - 1] in free;
      }
    }
  }

  lemma HandlesGiven(file: seq<DiskFile?>, h: nat)
    requires h < |file|
    ensures Handles(file[h := null]) == Handles(file)[h := None]
  {
  }

  datatype Status = Ok | NoAccess | BadFile

  lemma HeadIs(next: seq<Option<nat>>, head: Option<nat>, free: seq<nat>)
    requires Chained(next, head, free)
    ensures head == None <==> free == []
  {
  }

  lemma InvOf(s: Fs)
    requires FsInv(s)
    ensures Inv(s.vol) && PoolOk(s.free, s.file) && UniqueInodes(s.vol.files)
  {
    hide Inv, PoolOk, AllRefsOk, HandlesLive;
    UniqueIn(s.vol);
  }

  lemma TakeNext(next: seq<Option<nat>>, head: Option<nat>, free: seq<nat>)
    requires Chained(next, head, free) && free != []
    ensures free[0] < |next| && Chained(next, next[free[0]], free[1..])
  {
    assert NextIs(next, free, 0);
    forall k | 0 <= k < |free[1..]| ensures NextIs(next, free[1..], k) {
      assert NextIs(next, free, k + 1);
    }
  }
}
