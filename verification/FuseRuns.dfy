/** Whole runs of the mounted volume: handles, references, and the one time a file's sectors are
    given back. */
module FuseRuns {
  import opened Bytes
  import opened SectorMap
  import opened Chains
  import opened FileModel
  import opened FileLaws
  import opened Ownership
  import opened Directory
  import opened VolumeModel
  import opened VolumeOps
  import opened FuseModel

  /** Every operation of the run is one its caller may ask for at that point. */
  ghost predicate Permitted(s: Fs, es: seq<Event>)
    requires FsInv(s)
    decreases |es|
  {
    es == [] || (Allowed(s, es[0]) && (StepKeeps(s, es[0]); Permitted(Step(s, es[0]), es[1..])))
  }

  ghost function RunFs(s: Fs, es: seq<Event>): (r: Fs)
    requires FsInv(s) && Permitted(s, es)
    ensures FsInv(r)
    decreases |es|
  {
    if es == [] then s
    else
      StepKeeps(s, es[0]);
      RunFs(Step(s, es[0]), es[1..])
  }

  // ----- what one operation does to the set of files

  /** The step that gives a file's sectors back: the last close of an unlinked file, or the
      unlink of a file nobody holds. */
  ghost predicate Leaves(s: Fs, e: Event, i: nat)
    requires FsInv(s) && Allowed(s, e) && i < |s.vol.files|
  {
    match e
    case Release(h) => Held(s, h) == i && s.vol.files[i].unlinked && s.vol.files[i].refs == 1
    case Unlink(path) => Find(s.vol.files, path) == i && s.vol.files[i].refs == 0
    case _ => false
  }

  ghost predicate Creates(s: Fs, e: Event)
    requires FsInv(s) && Allowed(s, e)
  {
    e.Create? && Find(s.vol.files, e.path) == -1 && s.free != [] && FileCreate(s.vol, e.path, e.table).1.Some?
  }

  function BlankFile(): File { File(0, [], [], [], 0, 0, 0, false, false, 0, 0) }

  lemma CreateFiles(s: Fs, e: Event) returns (k: nat, f: File)
    requires FsInv(s) && Allowed(s, e) && e.Create?
    ensures Step(s, e).vol.next >= s.vol.next
    ensures !Creates(s, e) ==> Step(s, e).vol.files == s.vol.files
    ensures Creates(s, e) ==>
              k <= |s.vol.files| && Step(s, e).vol.files == InsertAt(s.vol.files, k, f) && f.inode == s.vol.next && f.leaked == 0
  {
    hide Inv, PoolOk, AllRefsOk, HandlesLive, Linked, FileCreate, NewFile, Holders, Position;
    k, f := 0, BlankFile();
    if Find(s.vol.files, e.path) == -1 && s.free != [] {
      if FileCreate(s.vol, e.path, e.table).1 == None {
        NotCreated(s.vol, e.path, e.table);
      } else {
        CreatedAs(s.vol, e.path, e.table);
        CreateLaw(s.vol, e.path, e.table);
        f := NewFile(s.vol.next, e.path, e.table).(dir := FirstFree(s.vol.disk, 0), refs := 1);
        k := Position(s.vol.files, Name(f));
      }
    }
  }

  lemma RenameFiles(s: Fs, from: seq<byte>, to: seq<byte>) returns (k: nat, g: File)
    requires FsInv(s) && |to| <= NAME_LEN
    ensures FsRename(s, from, to).vol.next == s.vol.next
    ensures Find(s.vol.files, from) == -1 ==> FsRename(s, from, to) == s
    ensures var i := Find(s.vol.files, from);
            i != -1 ==>
              && k <= |s.vol.files| - 1 && g.inode == s.vol.files[i].inode && g.leaked == s.vol.files[i].leaked + 1
              && g.unlinked == s.vol.files[i].unlinked && g.osname == to
              && FsRename(s, from, to).vol.files == InsertAt(RemoveAt(s.vol.files, i), k, g)
  {
    hide Inv, PoolOk, AllRefsOk, HandlesLive, Position, FileRename, PutName;
    k, g := 0, BlankFile();
    var i := Find(s.vol.files, from);
    if i != -1 {
      LeakKeeps(s.vol, i);
      var v := Leaked(s.vol, i);
      RenameLaw(v, i, to);
      g := Renamed(v.files[i], to).(dirty := false);
      k := Position(RemoveAt(v.files, i), Name(g));
      assert RemoveAt(v.files, i) == RemoveAt(s.vol.files, i);
    }
  }

  /** The list after one holder lets go of file i. */
  function Closed(fs: seq<File>, i: nat): seq<File>
    requires i < |fs| && fs[i].refs > 0
  {
    if fs[i].unlinked && fs[i].refs == 1 then RemoveAt(fs, i) else fs[i := fs[i].(refs := fs[i].refs - 1)]
  }

  lemma ReleaseFiles(s: Fs, h: nat)
    requires FsInv(s) && h < HANDLES && s.file[h].Some?
    ensures s.vol.files[Held(s, h)].refs > 0
    ensures FsRelease(s, h).vol.next == s.vol.next
    ensures FsRelease(s, h).vol.files == Closed(s.vol.files, Held(s, h))
  {
    hide Inv, PoolOk, AllRefsOk, HandlesLive, FreeFile;
    HeldRefs(s, h);
    var i := Held(s, h);
    var f := s.vol.files[i].(refs := s.vol.files[i].refs - 1);
    assert f.refs == 0 && f.unlinked ==> RemoveAt(s.vol.files[i := f], i) == RemoveAt(s.vol.files, i);
  }

  lemma UnlinkFiles(s: Fs, path: seq<byte>)
    requires FsInv(s)
    ensures var i := Find(s.vol.files, path);
            FileUnlink(s.vol, path).0.files
            == if i == -1 then s.vol.files
               else if s.vol.files[i].refs == 0 then RemoveAt(s.vol.files, i)
               else s.vol.files[i := s.vol.files[i].(unlinked := true)]
  {
    hide Inv, PoolOk, AllRefsOk, HandlesLive, FileUnlink;
    if Find(s.vol.files, path) == -1 {
      NotUnlinked(s.vol, path);
    } else {
      UnlinkLaw(s.vol, path);
    }
  }

  /** A file is in the list after a step exactly when it was there and did not leave, or the
      step made it; identities are never used again. */
  lemma StepLive(s: Fs, e: Event, x: nat)
    requires FsInv(s) && Allowed(s, e)
    ensures Live(Step(s, e).vol.files, x) <==>
              || (Creates(s, e) && x == s.vol.next)
              || exists i :: 0 <= i < |s.vol.files| && s.vol.files[i].inode == x && !Leaves(s, e, i)
    ensures Step(s, e).vol.next >= s.vol.next
    ensures Creates(s, e) ==> !Live(s.vol.files, s.vol.next)
  {
    hide Inv, PoolOk, AllRefsOk, HandlesLive, FsCreate, FsRelease, FsRename, FileUnlink, FileWrite, Holders,
      FileCreate, MayWrite, RemoveAt, InsertAt, Closed;
    UniqueIn(s.vol);
    FreshInode(s.vol, s.file);
    var fs := s.vol.files;
    match e
    case Create(path, table) =>
      var k, f := CreateFiles(s, e);
      if Creates(s, e) {
        InsertLive(fs, k, f, x);
      }
    case Open(path) =>
      var i := Find(fs, path);
      if i != -1 {
        ReplaceLive(fs, i, fs[i].(refs := fs[i].refs + 1), x);
      }
    case Release(h) =>
      ReleaseLive(s, e, x);
    case Rename(from, to) =>
      var k, g := RenameFiles(s, from, to);
      var i := Find(fs, from);
      if i != -1 {
        MoveLive(fs, i, k, g, x);
      }
    case Unlink(path) =>
      UnlinkFiles(s, path);
      var i := Find(fs, path);
      if i != -1 {
        RemoveLive(fs, i, x);
        ReplaceLive(fs, i, fs[i].(unlinked := true), x);
      }
    case Write(h, buff, off) =>
      var i := Held(s, h);
      var gs := Step(s, e).vol.files;
      assert gs == fs[i := gs[i]];
      ReplaceLive(fs, i, gs[i], x);
  }

  lemma ReleaseLive(s: Fs, e: Event, x: nat)
    requires FsInv(s) && Allowed(s, e) && e.Release?
    ensures FsRelease(s, e.h).vol.next == s.vol.next
    ensures Live(FsRelease(s, e.h).vol.files, x) <==>
              exists i :: 0 <= i < |s.vol.files| && s.vol.files[i].inode == x && !Leaves(s, e, i)
  {
    hide Inv, PoolOk, AllRefsOk, HandlesLive, FsRelease, Held, UniqueInodes, RemoveAt;
    UniqueIn(s.vol);
    ReleaseFiles(s, e.h);
    var fs, i := s.vol.files, Held(s, e.h);
    RemoveLive(fs, i, x);
    ReplaceLive(fs, i, fs[i].(refs := fs[i].refs - 1), x);
    forall k | 0 <= k < |fs| && k != i ensures fs[k].inode != fs[i].inode {
      InodesApart(fs, k, i);
    }
  }

  // ----- freed exactly once

  lemma LeavingGoes(s: Fs, e: Event, i: nat)
    requires FsInv(s) && Allowed(s, e) && i < |s.vol.files| && Leaves(s, e, i)
    ensures Step(s, e).vol.files == RemoveAt(s.vol.files, i) && |Step(s, e).vol.disk.dev| == |s.vol.disk.dev|
  {
    hide Inv, PoolOk, AllRefsOk, HandlesLive, FileUnlink, FileClose;
    match e
    case Release(h) => ReleaseFiles(s, h);
    case Unlink(path) => UnlinkFiles(s, path);
  }

  /** When a file leaves, exactly the sectors it had taken become free. */
  lemma SectorsComeBack(s: Fs, e: Event, i: nat, t: nat)
    requires FsInv(s) && Allowed(s, e) && i < |s.vol.files| && Leaves(s, e, i) && t < |s.vol.disk.dev|
    ensures FsInv(Step(s, e)) && WfDisk(s.vol.disk) && WfDisk(Step(s, e).vol.disk) && WfFile(s.vol.files[i])
    ensures |s.vol.disk.dev| <= MAX_SECTORS
    ensures Used(Step(s, e).vol.disk.vol, t) <==> Used(s.vol.disk.vol, t) && t !in Owns(s.vol.files[i])
  {
    hide FsInv, Step, PoolOk, AllRefsOk, HandlesLive, Used, Owns, AllOwned, Sorted, UniqueInodes, EntriesOk, Linked,
      DirBytes;
    StepKeeps(s, e);
    LeavingGoes(s, e, i);
    AllocatedIn(s);
    AllocatedIn(Step(s, e));
    RemoveHolds(s.vol.files, i, t);
    if t in Owns(s.vol.files[i]) {
      SystemApart(s.vol.disk, s.vol.files, i, t);
      HoldsBy(s.vol.files, i, t);
    }
  }

  lemma AllocatedIn(s: Fs)
    requires FsInv(s)
    ensures Allocated(s.vol.disk, s.vol.files)
  {
    hide Allocated, PoolOk, AllRefsOk, HandlesLive, UniqueInodes, Sorted, EntriesOk, Linked, DirBytes;
  }

  lemma SystemApart(d: Disk, fs: seq<File>, i: nat, t: int)
    requires Allocated(d, fs) && i < |fs| && t in Owns(fs[i])
    ensures t >= 2
  {
    hide Used;
    assert Owned(d, fs[i]);
    OwnsInRange(d, fs[i], t);
  }

  /** Once gone, gone for the rest of the run: its sectors are freed once only. */
  lemma {:induction false} GoneForGood(s: Fs, es: seq<Event>, x: nat)
    requires FsInv(s) && Permitted(s, es) && x < s.vol.next && !Live(s.vol.files, x)
    ensures !Live(RunFs(s, es).vol.files, x)
    decreases |es|
  {
    hide FsInv, Step, Allowed, Creates, Leaves;
    if es != [] {
      StepKeeps(s, es[0]);
      StepLive(s, es[0], x);
      GoneForGood(Step(s, es[0]), es[1..], x);
    }
  }

  /** A step takes a file off the list exactly when it is one of the two that free its sectors,
      and then the file is off it for good: nothing frees them again. */
  lemma FreedOnce(s: Fs, e: Event, i: nat, es: seq<Event>)
    requires FsInv(s) && Allowed(s, e) && i < |s.vol.files| && FsInv(Step(s, e)) && Permitted(Step(s, e), es)
    ensures Leaves(s, e, i) <==> !Live(Step(s, e).vol.files, s.vol.files[i].inode)
    ensures Leaves(s, e, i) ==> !Live(RunFs(Step(s, e), es).vol.files, s.vol.files[i].inode)
  {
    hide FsInv, Step, Allowed, Creates, Leaves, Live;
    var x := s.vol.files[i].inode;
    StepLive(s, e, x);
    InodeBelow(s, i);
    if Leaves(s, e, i) {
      GoneForGood(Step(s, e), es, x);
    }
  }

  lemma InodeBelow(s: Fs, i: nat)
    requires FsInv(s) && i < |s.vol.files|
    ensures s.vol.files[i].inode < s.vol.next && UniqueInodes(s.vol.files)
  {
    hide Allocated, PoolOk, AllRefsOk, HandlesLive, UniqueInodes, Sorted, Linked, DirBytes, EntryOk;
  }

  // ----- handles

  /** Only a release takes a handle away from the file it is open on. */
  lemma HandleStays(s: Fs, e: Event, h: nat)
    requires FsInv(s) && Allowed(s, e) && h < HANDLES && s.file[h].Some? && e != Release(h)
    ensures |Step(s, e).file| == HANDLES && Step(s, e).file[h] == s.file[h]
  {
    hide Inv, AllRefsOk, HandlesLive, FileUnlink, FileClose, FileWrite, FileRename, FileCreate, MayWrite, Linked;
  }

  /** A handle in use is never given out again before its release, and throughout the run the
      file it is open on stays in the list. */
  lemma {:induction false} HandleKept(s: Fs, es: seq<Event>, h: nat)
    requires FsInv(s) && Permitted(s, es) && h < HANDLES && s.file[h].Some? && Release(h) !in es
    ensures |RunFs(s, es).file| == HANDLES && RunFs(s, es).file[h] == s.file[h]
    ensures Live(RunFs(s, es).vol.files, s.file[h].value)
    decreases |es|
  {
    hide Inv, Step, Allowed, AllRefsOk, Live;
    if es != [] {
      StepKeeps(s, es[0]);
      HandleStays(s, es[0], h);
      HandleKept(Step(s, es[0]), es[1..], h);
    }
  }

  ghost predicate HandsOut(s: Fs, s': Fs) {
    && s.free != [] && s.free[0] < |s.file| && s.file[s.free[0]] == None && s'.free == s.free[1..]
    && exists x :: s'.file == s.file[s.free[0] := Some(x)] && Live(s'.vol.files, x)
  }

  /** create and open hand out the head of the free list, open on a file of the list, or they
      leave the pool alone; so does every other operation but release. */
  lemma GivesFreeHandle(s: Fs, e: Event)
    requires FsInv(s) && Allowed(s, e) && !e.Release?
    ensures HandsOut(s, Step(s, e)) || (Step(s, e).file == s.file && Step(s, e).free == s.free)
  {
    hide Inv, AllRefsOk, FileUnlink, FileClose, FileWrite, FileRename, FileCreate, MayWrite, Linked, Live;
    StepKeeps(s, e);
    var s' := Step(s, e);
    if s'.file != s.file {
      var x := s'.file[s.free[0]].value;
      assert s'.file == s.file[s.free[0] := Some(x)] && Live(s'.vol.files, x);
    }
  }

  /** At any point of any run the pool is whole and every file has a reference for each handle
      open on it. */
  lemma PoolWhole(s: Fs, es: seq<Event>)
    requires FsInv(s) && Permitted(s, es)
    ensures var r := RunFs(s, es);
            && |r.free| + InUse(r.file) == HANDLES
            && (forall f :: f in r.vol.files ==> Holders(r.file, f.inode) <= f.refs)
            && (forall h :: 0 <= h < |r.file| && r.file[h].Some? ==> Live(r.vol.files, r.file[h].value))
  {
    hide Inv, Live, Holders, Permitted, RunFs, InUse, PoolOk;
    var r := RunFs(s, es);
    PoolCount(r.free, r.file);
    forall f | f in r.vol.files ensures Holders(r.file, f.inode) <= f.refs {
      var i :| 0 <= i < |r.vol.files| && r.vol.files[i] == f;
      assert RefsOk(r.vol.files[i], r.file);
    }
  }

  // ----- the reference a rename leaks

  ghost predicate Pinned(fs: seq<File>, x: nat) {
    exists i :: 0 <= i < |fs| && fs[i].inode == x && fs[i].leaked > 0
  }

  lemma PinnedAt(fs: seq<File>, i: nat)
    requires i < |fs| && fs[i].leaked > 0
    ensures Pinned(fs, fs[i].inode)
  {
  }

  lemma PinnedInsert(fs: seq<File>, k: nat, f: File, x: nat)
    requires k <= |fs| && Pinned(fs, x)
    ensures Pinned(InsertAt(fs, k, f), x)
  {
    var i :| 0 <= i < |fs| && fs[i].inode == x && fs[i].leaked > 0;
    PinnedAt(InsertAt(fs, k, f), if i < k then i else i + 1);
  }

  lemma PinnedReplace(fs: seq<File>, i: nat, g: File, x: nat)
    requires i < |fs| && g.inode == fs[i].inode && g.leaked >= fs[i].leaked && Pinned(fs, x)
    ensures Pinned(fs[i := g], x)
  {
    var k :| 0 <= k < |fs| && fs[k].inode == x && fs[k].leaked > 0;
    PinnedAt(fs[i := g], k);
  }

  lemma PinnedRemove(fs: seq<File>, i: nat, x: nat)
    requires i < |fs| && fs[i].leaked == 0 && Pinned(fs, x)
    ensures Pinned(RemoveAt(fs, i), x)
  {
    var k :| 0 <= k < |fs| && fs[k].inode == x && fs[k].leaked > 0;
    PinnedAt(RemoveAt(fs, i), Before(i, k));
  }

  lemma PinnedMove(fs: seq<File>, i: nat, k: nat, g: File, x: nat)
    requires i < |fs| && k <= |fs| - 1 && g.inode == fs[i].inode && g.leaked > 0 && Pinned(fs, x)
    ensures Pinned(InsertAt(RemoveAt(fs, i), k, g), x)
  {
    hide InsertAt, RemoveAt;
    if x == g.inode {
      PinnedAt(InsertAt(RemoveAt(fs, i), k, g), k);
    } else {
      var a :| 0 <= a < |fs| && fs[a].inode == x && fs[a].leaked > 0;
      PinnedAt(RemoveAt(fs, i), Before(i, a));
      PinnedInsert(RemoveAt(fs, i), k, g, x);
    }
  }

  lemma LeavesUnleaked(s: Fs, e: Event, i: nat)
    requires FsInv(s) && Allowed(s, e) && i < |s.vol.files| && Leaves(s, e, i)
    ensures s.vol.files[i].leaked == 0
  {
    hide Inv, Live, Holders, MayWrite, Linked;
    assert RefsOk(s.vol.files[i], s.file);
    if e.Release? {
      SomeHolder(s.file, e.h, s.file[e.h].value);
    }
  }

  lemma PinnedStays(s: Fs, e: Event, x: nat)
    requires FsInv(s) && Allowed(s, e) && Pinned(s.vol.files, x)
    ensures Pinned(Step(s, e).vol.files, x)
  {
    hide Inv, PoolOk, AllRefsOk, HandlesLive, FsCreate, FsRelease, FsRename, FileUnlink, FileWrite, FileCreate,
      MayWrite, Pinned, Live;
    var fs := s.vol.files;
    match e
    case Create(path, table) =>
      var k, f := CreateFiles(s, e);
      if Creates(s, e) {
        PinnedInsert(fs, k, f, x);
      }
    case Open(path) =>
      var i := Find(fs, path);
      if i != -1 {
        PinnedReplace(fs, i, fs[i].(refs := fs[i].refs + 1), x);
      }
    case Release(h) =>
      ReleaseFiles(s, h);
      var i := Held(s, h);
      if Leaves(s, e, i) {
        LeavesUnleaked(s, e, i);
        PinnedRemove(fs, i, x);
      } else {
        PinnedReplace(fs, i, fs[i].(refs := fs[i].refs - 1), x);
      }
    case Rename(from, to) =>
      var k, g := RenameFiles(s, from, to);
      var i := Find(fs, from);
      if i != -1 {
        PinnedMove(fs, i, k, g, x);
      }
    case Unlink(path) =>
      UnlinkFiles(s, path);
      var i := Find(fs, path);
      if i != -1 {
        if fs[i].refs == 0 {
          LeavesUnleaked(s, e, i);
          PinnedRemove(fs, i, x);
        } else {
          PinnedReplace(fs, i, fs[i].(unlinked := true), x);
        }
      }
    case Write(h, buff, off) =>
      var i := Held(s, h);
      var gs := Step(s, e).vol.files;
      assert gs == fs[i := gs[i]];
      PinnedReplace(fs, i, gs[i], x);
  }

  /** A file that was renamed is never freed while mounted, not even after its unlink and the
      last close: the reference rename takes is never given back. */
  lemma {:induction false} RenamedNeverFreed(s: Fs, es: seq<Event>, x: nat)
    requires FsInv(s) && Permitted(s, es) && Pinned(s.vol.files, x)
    ensures Live(RunFs(s, es).vol.files, x)
    decreases |es|
  {
    hide FsInv, Step, Allowed;
    if es != [] {
      StepKeeps(s, es[0]);
      PinnedStays(s, es[0], x);
      RenamedNeverFreed(Step(s, es[0]), es[1..], x);
    }
  }

  lemma RenamePins(s: Fs, from: seq<byte>, to: seq<byte>)
    requires FsInv(s) && |to| <= NAME_LEN && Find(s.vol.files, from) != -1
    ensures Pinned(FsRename(s, from, to).vol.files, s.vol.files[Find(s.vol.files, from)].inode)
  {
    hide FsInv, FsRename;
    var k, g := RenameFiles(s, from, to);
    PinnedAt(FsRename(s, from, to).vol.files, k);
  }

  // ----- and nothing else leaks one

  /** A rename that finds file x. */
  ghost predicate Renames(s: Fs, e: Event, x: nat) {
    e.Rename? && Find(s.vol.files, e.from) != -1 && s.vol.files[Find(s.vol.files, e.from)].inode == x
  }

  /** An unlink that finds file x. */
  ghost predicate Unlinks(s: Fs, e: Event, x: nat) {
    e.Unlink? && Find(s.vol.files, e.path) != -1 && s.vol.files[Find(s.vol.files, e.path)].inode == x
  }

  ghost predicate RenamedIn(s: Fs, es: seq<Event>, x: nat)
    requires FsInv(s) && Permitted(s, es)
    decreases |es|
  {
    es != [] && (Renames(s, es[0], x) || (StepKeeps(s, es[0]); RenamedIn(Step(s, es[0]), es[1..], x)))
  }

  ghost predicate UnlinkedIn(s: Fs, es: seq<Event>, x: nat)
    requires FsInv(s) && Permitted(s, es)
    decreases |es|
  {
    es != [] && (Unlinks(s, es[0], x) || (StepKeeps(s, es[0]); UnlinkedIn(Step(s, es[0]), es[1..], x)))
  }

  /** What a step can have made of file f, being g now. */
  ghost predicate Becomes(s: Fs, e: Event, f: File, g: File) {
    && g.inode == f.inode && (f.unlinked || Unlinks(s, e, f.inode) ==> g.unlinked)
    && (Renames(s, e, f.inode) || g.leaked == f.leaked)
  }

  /** Every file after a step was there before, or the step made it. */
  lemma Origin(s: Fs, e: Event, j: nat) returns (i: nat)
    requires FsInv(s) && Allowed(s, e) && j < |Step(s, e).vol.files|
    requires !(Creates(s, e) && Step(s, e).vol.files[j].inode == s.vol.next)
    ensures i < |s.vol.files| && Becomes(s, e, s.vol.files[i], Step(s, e).vol.files[j])
  {
    hide FsInv, FsCreate, FsOpen, FsRelease, FsRename, FsUnlink, FsWrite, MayWrite, Creates, Becomes, Linked, Held;
    match e
    case Create(path, table) => i := CreateOrigin(s, e, j);
    case Open(path) => i := OpenOrigin(s, path, j);
    case Release(h) => i := ReleaseOrigin(s, h, j);
    case Rename(from, to) => i := RenameOrigin(s, from, to, j);
    case Unlink(path) => i := UnlinkOrigin(s, path, j);
    case Write(h, buff, off) => i := WriteOrigin(s, e, j);
  }

  lemma CreateOrigin(s: Fs, e: Event, j: nat) returns (i: nat)
    requires FsInv(s) && Allowed(s, e) && e.Create? && j < |Step(s, e).vol.files|
    requires !(Creates(s, e) && Step(s, e).vol.files[j].inode == s.vol.next)
    ensures i < |s.vol.files| && Becomes(s, e, s.vol.files[i], Step(s, e).vol.files[j])
  {
    hide FsInv, Step, Allowed, Creates;
    var k, f := CreateFiles(s, e);
    i := if Creates(s, e) && j > k then j - 1 else j;
  }

  lemma OpenOrigin(s: Fs, path: seq<byte>, j: nat) returns (i: nat)
    requires FsInv(s) && j < |FsOpen(s, path).vol.files|
    ensures i < |s.vol.files| && Becomes(s, Open(path), s.vol.files[i], FsOpen(s, path).vol.files[j])
  {
    hide Inv, PoolOk, AllRefsOk, HandlesLive;
    i := j;
  }

  lemma ReleaseOrigin(s: Fs, h: nat, j: nat) returns (i: nat)
    requires FsInv(s) && h < HANDLES && s.file[h].Some? && j < |FsRelease(s, h).vol.files|
    ensures i < |s.vol.files| && Becomes(s, Release(h), s.vol.files[i], FsRelease(s, h).vol.files[j])
  {
    hide FsInv, FsRelease, Held, Closed;
    ReleaseFiles(s, h);
    i := ClosedOrigin(s.vol.files, Held(s, h), j);
  }

  lemma ClosedOrigin(fs: seq<File>, r: nat, j: nat) returns (i: nat)
    requires r < |fs| && fs[r].refs > 0 && j < |Closed(fs, r)|
    ensures i < |fs|
    ensures var g := Closed(fs, r)[j]; g.inode == fs[i].inode && g.unlinked == fs[i].unlinked && g.leaked == fs[i].leaked
  {
    i := if fs[r].unlinked && fs[r].refs == 1 then After(r, j) else j;
  }

  lemma UnlinkOrigin(s: Fs, path: seq<byte>, j: nat) returns (i: nat)
    requires FsInv(s) && j < |FsUnlink(s, path).vol.files|
    ensures i < |s.vol.files| && Becomes(s, Unlink(path), s.vol.files[i], FsUnlink(s, path).vol.files[j])
  {
    hide Inv, PoolOk, AllRefsOk, HandlesLive, FileUnlink, UniqueInodes;
    UnlinkFiles(s, path);
    var fs, r := s.vol.files, Find(s.vol.files, path);
    i := if r != -1 && fs[r].refs == 0 then After(r, j) else j;
    if r != -1 && i != r {
      InodeBelow(s, i);
      InodesApart(fs, r, i);
    }
  }

  lemma WriteOrigin(s: Fs, e: Event, j: nat) returns (i: nat)
    requires FsInv(s) && Allowed(s, e) && e.Write? && j < |Step(s, e).vol.files|
    ensures i < |s.vol.files| && Becomes(s, e, s.vol.files[i], Step(s, e).vol.files[j])
  {
    hide Inv, PoolOk, AllRefsOk, HandlesLive, FileWrite, MayWrite, Held;
    i := j;
  }

  lemma RenameOrigin(s: Fs, from: seq<byte>, to: seq<byte>, j: nat) returns (i: nat)
    requires FsInv(s) && |to| <= NAME_LEN && j < |FsRename(s, from, to).vol.files|
    ensures i < |s.vol.files| && Becomes(s, Rename(from, to), s.vol.files[i], FsRename(s, from, to).vol.files[j])
  {
    hide FsInv, FsRename, UniqueInodes;
    var k, g := RenameFiles(s, from, to);
    var r := Find(s.vol.files, from);
    i := if r == -1 then j else if j == k then r else After(r, if j < k then j else j - 1);
    if r != -1 && j != k {
      InodeBelow(s, i);
      InodesApart(s.vol.files, r, i);
    }
  }

  lemma InodesApart(fs: seq<File>, i: nat, j: nat)
    requires UniqueInodes(fs) && i < |fs| && j < |fs| && i != j
    ensures fs[i].inode != fs[j].inode
  {
  }

  /** A step pins a file if and only if it was pinned or the step is a rename that finds it. */
  lemma OnlyRenamePins(s: Fs, e: Event, x: nat)
    requires FsInv(s) && Allowed(s, e)
    ensures Pinned(Step(s, e).vol.files, x) <==> Pinned(s.vol.files, x) || Renames(s, e, x)
  {
    hide FsInv, Allowed, Step, FsRename;
    if Pinned(s.vol.files, x) {
      PinnedStays(s, e, x);
    } else if Renames(s, e, x) {
      RenameIs(s, e);
      RenamePins(s, e.from, e.to);
    } else if Pinned(Step(s, e).vol.files, x) {
      var j: nat :| j < |Step(s, e).vol.files| && Step(s, e).vol.files[j].inode == x && Step(s, e).vol.files[j].leaked > 0;
      NewUnleaked(s, e, j);
      var i := Origin(s, e, j);
      PinnedAt(s.vol.files, i);
    }
  }

  lemma RenameIs(s: Fs, e: Event)
    requires FsInv(s) && Allowed(s, e) && e.Rename?
    ensures |e.to| <= NAME_LEN && Step(s, e) == FsRename(s, e.from, e.to)
  {
    hide FsInv, FsRename;
  }

  lemma NewUnleaked(s: Fs, e: Event, j: nat)
    requires FsInv(s) && Allowed(s, e) && j < |Step(s, e).vol.files| && Step(s, e).vol.files[j].leaked > 0
    ensures !(Creates(s, e) && Step(s, e).vol.files[j].inode == s.vol.next)
  {
    hide FsInv, FsCreate, Creates;
    if Creates(s, e) && Step(s, e).vol.files[j].inode == s.vol.next {
      CreatesIs(s, e);
      var k, f := CreateFiles(s, e);
      if j != k {
        InodeBelow(s, if j < k then j else j - 1);
      }
    }
  }

  lemma CreatesIs(s: Fs, e: Event)
    requires FsInv(s) && Allowed(s, e) && Creates(s, e)
    ensures e.Create?
  {
  }

  lemma {:induction false} PinnedInRun(s: Fs, es: seq<Event>, x: nat)
    requires FsInv(s) && Permitted(s, es)
    ensures Pinned(RunFs(s, es).vol.files, x) <==> Pinned(s.vol.files, x) || RenamedIn(s, es, x)
    decreases |es|
  {
    hide FsInv, Step, Allowed, Pinned, Renames;
    if es != [] {
      StepKeeps(s, es[0]);
      OnlyRenamePins(s, es[0], x);
      PinnedInRun(Step(s, es[0]), es[1..], x);
    }
  }

  /** Whatever is there of file x is unlinked. */
  ghost predicate Marked(fs: seq<File>, x: nat) {
    forall i :: 0 <= i < |fs| && fs[i].inode == x ==> fs[i].unlinked
  }

  lemma MarkStays(s: Fs, e: Event, x: nat)
    requires FsInv(s) && Allowed(s, e) && x < s.vol.next && (Marked(s.vol.files, x) || Unlinks(s, e, x))
    ensures Marked(Step(s, e).vol.files, x)
  {
    hide FsInv, Allowed, Step, Unlinks, Creates;
    var gs := Step(s, e).vol.files;
    forall j | 0 <= j < |gs| && gs[j].inode == x ensures gs[j].unlinked {
      var i := Origin(s, e, j);
    }
  }

  lemma UnlinksKnown(s: Fs, e: Event, x: nat)
    requires FsInv(s) && Unlinks(s, e, x)
    ensures x < s.vol.next
  {
    hide FsInv;
    InodeBelow(s, Find(s.vol.files, e.path));
  }

  lemma {:induction false} MarkedInRun(s: Fs, es: seq<Event>, x: nat)
    requires FsInv(s) && Permitted(s, es) && ((x < s.vol.next && Marked(s.vol.files, x)) || UnlinkedIn(s, es, x))
    ensures Marked(RunFs(s, es).vol.files, x)
    decreases |es|
  {
    hide FsInv, Step, Allowed, Marked, Unlinks, Live, Creates, Leaves;
    if es != [] {
      StepKeeps(s, es[0]);
      StepLive(s, es[0], x);
      if Unlinks(s, es[0], x) {
        UnlinksKnown(s, es[0], x);
      }
      if x < s.vol.next && (Marked(s.vol.files, x) || Unlinks(s, es[0], x)) {
        MarkStays(s, es[0], x);
      }
      MarkedInRun(Step(s, es[0]), es[1..], x);
    }
  }

  lemma UnheldIsPinned(s: Fs, x: nat)
    requires FsInv(s) && Live(s.vol.files, x) && Marked(s.vol.files, x) && Holders(s.file, x) == 0
    ensures Pinned(s.vol.files, x)
  {
    hide Inv, PoolOk, HandlesLive, Holders;
    var i :| 0 <= i < |s.vol.files| && s.vol.files[i].inode == x;
    assert RefsOk(s.vol.files[i], s.file);
    PinnedAt(s.vol.files, i);
  }

  /** An unlinked file goes with its last close, unless it was renamed: for every run and every
      file the run unlinks, of which no handle is left open and nothing was leaked before, the
      file is still in the list if and only if the run renamed it. */
  lemma GoesUnlessRenamed(s: Fs, es: seq<Event>, x: nat)
    requires FsInv(s) && Permitted(s, es) && !Pinned(s.vol.files, x)
    requires UnlinkedIn(s, es, x) && Holders(RunFs(s, es).file, x) == 0
    ensures Live(RunFs(s, es).vol.files, x) <==> RenamedIn(s, es, x)
  {
    hide FsInv, Permitted, RunFs, Marked, Holders, RenamedIn, UnlinkedIn;
    PinnedInRun(s, es, x);
    if Live(RunFs(s, es).vol.files, x) {
      MarkedInRun(s, es, x);
      UnheldIsPinned(RunFs(s, es), x);
    }
  }

  lemma MountUnpinned(v: Vol, x: nat)
    requires Unheld(v.files)
    ensures !Pinned(Mounted(v).vol.files, x)
  {
  }

  /** The same for every run of a fresh mount, whatever files it starts with or creates. */
  lemma GoesUnlessRenamedSinceMount(v: Vol, es: seq<Event>, x: nat)
    requires Inv(v) && Unheld(v.files) && FsInv(Mounted(v)) && Permitted(Mounted(v), es)
    requires UnlinkedIn(Mounted(v), es, x) && Holders(RunFs(Mounted(v), es).file, x) == 0
    ensures Live(RunFs(Mounted(v), es).vol.files, x) <==> RenamedIn(Mounted(v), es, x)
  {
    hide FsInv, Permitted, RunFs, Holders, RenamedIn, UnlinkedIn, Mounted, Unheld;
    MountUnpinned(v, x);
    GoesUnlessRenamed(Mounted(v), es, x);
  }
}
