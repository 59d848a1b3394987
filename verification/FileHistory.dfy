/** What a file holds is the history of its own writes: from the moment it is created, through
    any run of the mounted volume, to a later mount of the same device. */
module FileHistory {
  import opened Bytes
  import opened SectorMap
  import opened Chains
  import opened FileModel
  import opened FileLaws
  import opened Ownership
  import opened Directory
  import opened VolumeModel
  import opened VolumeOps
  import opened FuseModel
  import opened FuseRuns
  import opened FileContents
  import opened Reopen

  // ----- the bytes of a file in the list

  ghost predicate Fills(c: seq<byte>, b: seq<byte>) {
    b <= c && |c| < |b| + SECTOR
  }

  function ExtentOf(b: seq<byte>): Extent { Extent(|b|, |b| % SECTOR) }

  /** File x is in the list and holds exactly these bytes: its sectors are as many as they take,
      and its length and directory entry say so. */
  ghost predicate Contains(v: Vol, x: nat, b: seq<byte>) {
    exists c :: Fills(c, b) && Shows(v, x, c, ExtentOf(b))
  }

  ghost predicate ContainsAt(v: Vol, i: nat, b: seq<byte>)
    requires WfDisk(v.disk) && WfFiles(v.files) && i < |v.files|
  {
    && WfFile(v.files[i]) && InRange(v.disk, Sectors(v.files[i])) && Sized(v.files[i])
    && FileBytes(v.disk, v.files[i]) == b
  }

  lemma FileAt(v: Vol, x: nat, b: seq<byte>) returns (i: nat)
    requires Contains(v, x, b)
    ensures WfDisk(v.disk) && WfFiles(v.files) && i < |v.files| && v.files[i].inode == x && ContainsAt(v, i, b)
  {
    hide Walk, Content, Sectors, AllOwned;
    var c :| Fills(c, b) && Shows(v, x, c, ExtentOf(b));
    var k :| ShowsAt(v, k, x, c, ExtentOf(b));
    i := k;
    assert WfFile(v.files[i]);
    assert |Content(v.disk, Sectors(v.files[i]))| == SECTOR * |Sectors(v.files[i])|;
  }

  lemma AtFile(v: Vol, i: nat, b: seq<byte>)
    requires Inv(v) && WfDisk(v.disk) && WfFiles(v.files) && i < |v.files| && ContainsAt(v, i, b)
    ensures Contains(v, v.files[i].inode, b)
  {
    hide Inv, Walk, Content, Sectors, AllOwned, Allocated, SecCount, Used;
    OwnedIn(v);
    var c := Content(v.disk, Sectors(v.files[i]));
    assert ShowsAt(v, i, v.files[i].inode, c, ExtentOf(b));
    assert Shows(v, v.files[i].inode, c, ExtentOf(b));
    assert Fills(c, b);
  }

  // ----- the writes of a run

  /** The bytes that the run's writes to x make of b. */
  ghost function Replay(s: Fs, es: seq<Event>, x: nat, b: seq<byte>): seq<byte>
    requires FsInv(s) && Permitted(s, es)
    decreases |es|
  {
    if es == [] then b
    else
      StepKeeps(s, es[0]);
      Replay(Step(s, es[0]), es[1..], x, Replayed(s, es[0], x, b))
  }

  ghost function Replayed(s: Fs, e: Event, x: nat, b: seq<byte>): seq<byte>
    requires FsInv(s) && Allowed(s, e)
  {
    if WritesTo(s, e, x) && e.off <= |b| then Overwrite(b, e.off, e.buff) else b
  }

  /** A write to x starts no later than the end of the file and reports the whole request. */
  ghost predicate Taken(s: Fs, e: Event, x: nat, b: seq<byte>)
    requires FsInv(s) && Allowed(s, e)
  {
    WritesTo(s, e, x) ==> e.off <= |b| && FsWrite(s, e.h, e.buff, e.off).1 == |e.buff|
  }

  ghost predicate AllTaken(s: Fs, es: seq<Event>, x: nat, b: seq<byte>)
    requires FsInv(s) && Permitted(s, es)
    decreases |es|
  {
    es == []
    || (&& Taken(s, es[0], x, b)
        && (StepKeeps(s, es[0]); AllTaken(Step(s, es[0]), es[1..], x, Replayed(s, es[0], x, b))))
  }

  lemma OwnWrite(s: Fs, e: Event, x: nat, b: seq<byte>)
    requires FsInv(s) && Allowed(s, e) && WritesTo(s, e, x) && Taken(s, e, x, b) && Contains(s.vol, x, b)
    ensures Contains(Step(s, e).vol, x, Overwrite(b, e.off, e.buff))
  {
    StepKeeps(s, e);
    InvOfStep(s);
    InvOfStep(Step(s, e));
    OwnedIn(s.vol);
    OwnedIn(Step(s, e).vol);
    var r := Held(s, e.h);
    var i := FileAt(s.vol, x, b);
    InodeBelow(s, i);
    SamePlace(s.vol.files, i, r);
    WriteAt(s.vol, r, e.buff, e.off, b);
    AtFile(Step(s, e).vol, r, Overwrite(b, e.off, e.buff));
  }

  lemma SamePlace(fs: seq<File>, i: nat, j: nat)
    requires UniqueInodes(fs) && i < |fs| && j < |fs| && fs[i].inode == fs[j].inode
    ensures i == j
  {
  }

  lemma WriteAt(v: Vol, i: nat, buff: seq<byte>, off: nat, b: seq<byte>)
    requires Inv(v) && i < |v.files| && MayWrite(v, i, off, |buff|)
    requires WfDisk(v.disk) && WfFiles(v.files) && ContainsAt(v, i, b) && off <= |b|
    requires FileWrite(v, i, buff, off).1 == |buff|
    ensures var v' := FileWrite(v, i, buff, off).0;
            WfDisk(v'.disk) && WfFiles(v'.files) && ContainsAt(v', i, Overwrite(b, off, buff))
  {
    OwnedIn(v);
    OwnedIn(FileWrite(v, i, buff, off).0);
    var f := v.files[i];
    hide Inv, CanWrite, Regular, FileModel.Write, Walk, Content, Overwrite, FreeCount, AllOwned, Allocated, SecCount,
      Used;
    WriteComplete(v.disk, f, buff, off);
    WriteIsOverwrite(v.disk, f, buff, off);
    var (d', f', _) := FileModel.Write(v.disk, f, buff, off);
    OwnedBasics(d', f');
    SoundBasics(d', f');
  }

  lemma StepReplays(s: Fs, e: Event, x: nat, b: seq<byte>)
    requires FsInv(s) && Allowed(s, e) && Contains(s.vol, x, b) && Taken(s, e, x, b)
    ensures Live(Step(s, e).vol.files, x) ==> Contains(Step(s, e).vol, x, Replayed(s, e, x, b))
  {
    hide FsInv, Allowed, Step, Contains, Shows, Live, Fills, Overwrite;
    if WritesTo(s, e, x) {
      OwnWrite(s, e, x, b);
    } else {
      var c := Sectored(s.vol, x, b);
      OneStepShows(s, e, x, c, ExtentOf(b));
      if Shows(Step(s, e).vol, x, c, ExtentOf(b)) {
        FromSectors(Step(s, e).vol, x, b, c);
      }
    }
  }

  lemma Sectored(v: Vol, x: nat, b: seq<byte>) returns (c: seq<byte>)
    requires Contains(v, x, b)
    ensures Fills(c, b) && Shows(v, x, c, ExtentOf(b))
  {
    hide Fills, Shows;
    c :| Fills(c, b) && Shows(v, x, c, ExtentOf(b));
  }

  lemma FromSectors(v: Vol, x: nat, b: seq<byte>, c: seq<byte>)
    requires Fills(c, b) && Shows(v, x, c, ExtentOf(b))
    ensures Contains(v, x, b)
  {
    hide Fills, Shows;
  }

  /** Refinement to byte sequences over whole runs: while others create, grow, rename, unlink and
      release, a file that is still there holds what replaying its own writes gives. */
  lemma {:induction false} RunReplays(s: Fs, es: seq<Event>, x: nat, b: seq<byte>)
    requires FsInv(s) && Permitted(s, es) && x < s.vol.next && Contains(s.vol, x, b) && AllTaken(s, es, x, b)
    ensures Live(RunFs(s, es).vol.files, x) ==> Contains(RunFs(s, es).vol, x, Replay(s, es, x, b))
    decreases |es|
  {
    hide FsInv, Step, Allowed, Contains, Live, Creates, Leaves, Taken, Replayed;
    if es != [] {
      StepKeeps(s, es[0]);
      StepReplays(s, es[0], x, b);
      StepLive(s, es[0], x);
      if Live(Step(s, es[0]).vol.files, x) {
        RunReplays(Step(s, es[0]), es[1..], x, Replayed(s, es[0], x, b));
      } else {
        GoneForGood(Step(s, es[0]), es[1..], x);
      }
    }
  }

  // ----- from creation

  lemma EmptyFile(v: Vol, i: nat)
    requires Inv(v) && i < |v.files| && WfFile(v.files[i])
    requires v.files[i].count == 0 && v.files[i].length == 0 && v.files[i].hdr[EOF_AT] == 0
    ensures Contains(v, v.files[i].inode, [])
  {
    hide Inv, AllOwned, Allocated, SecCount, Used, Contains;
    OwnedIn(v);
    assert Sectors(v.files[i]) == [];
    assert Content(v.disk, []) == [];
    AtFile(v, i, []);
  }

  lemma CreatedEmpty(s: Fs, e: Event)
    requires FsInv(s) && Allowed(s, e) && Creates(s, e)
    ensures Contains(Step(s, e).vol, s.vol.next, [])
  {
    StepKeeps(s, e);
    InvOfStep(s);
    InvOfStep(Step(s, e));
    CreatedAs(s.vol, e.path, e.table);
    CreateLaw(s.vol, e.path, e.table);
    var f := NewFile(s.vol.next, e.path, e.table).(dir := FirstFree(s.vol.disk, 0), refs := 1);
    assert f.hdr[EOF_AT] == 0 && f.count == 0 && f.length == 0;
    hide Inv, PoolOk, AllRefsOk, HandlesLive, FileCreate, NewFile, FirstFree, Linked, Position, WfFiles;
    AddedIs(s.vol.files, f);
    var k := Position(s.vol.files, Name(f));
    assert Step(s, e).vol.files[k] == f;
    EmptyFile(Step(s, e).vol, k);
  }

  /** Inside the file's length a read returns the bytes it holds. */
  lemma ReadsWithin(v: Vol, i: nat, b: seq<byte>, off: nat, len: nat)
    requires Inv(v) && i < |v.files| && Contains(v, v.files[i].inode, b) && off + len <= |b|
    ensures WfDisk(v.disk) && WfFile(v.files[i]) && InRange(v.disk, Sectors(v.files[i]))
    ensures ReadSlice(v.disk, v.files[i], off, len) == b[off..off + len]
  {
    UniqueIn(v);
    OwnedIn(v);
    OwnedOne(v, i);
    var k := FileAt(v, v.files[i].inode, b);
    SamePlace(v.files, k, i);
    hide Inv, Owned, AllOwned, Allocated, FileBytes, ReadSlice, Sectors, Contains;
    ReadStopsAtEnd(v.disk, v.files[i], off, len);
  }

  // ----- to the next mount

  lemma FewerSectors(d: Disk, g: File, f: File)
    requires Faithful(g, f) && Owned(d, f) && f.count > SAVED_CHAINS
    ensures |Sectors(g)| < |Sectors(f)|
  {
    hide SecCount, Used, Walk;
    var cs := Runs(f);
    WalkNext(cs, SAVED_CHAINS);
    WalkPrefix(cs, SAVED_CHAINS + 1);
    assert |Range(cs[SAVED_CHAINS].start, cs[SAVED_CHAINS].end)| > 0;
  }

  /** An entry read back gives the file's bytes if and only if all its runs were saved. */
  lemma EntryReads(d: Disk, d': Disk, g: File, f: File)
    requires Owned(d, f) && Sized(f) && Faithful(g, f) && WfDisk(d') && d'.dev == d.dev
    ensures WfDisk(d) && InRange(d, Sectors(f)) && InRange(d', Sectors(g)) && g.length == f.length
    ensures ReadSlice(d', g, 0, f.length) == FileBytes(d, f) <==> f.count <= SAVED_CHAINS
  {
    OwnedBasics(d, f);
    SoundBasics(d, f);
    WalkPrefix(Runs(f), Min(SAVED_CHAINS, f.count));
    if f.count <= SAVED_CHAINS {
      hide Walk, Content, SecCount, Used, Sound;
      assert Runs(f)[..f.count] == Runs(f);
      ContentSame(d, d', Sectors(f));
    } else {
      FewerSectors(d, g, f);
      hide Walk, Content, SecCount, Used, Sound;
    }
  }

  /** Opening the device again and reading a linked file gives the bytes it held if and only if
      it has no more than 23 runs. */
  lemma NextMountReads(v: Vol, table: seq<Chain>, k: nat, b: seq<byte>)
    requires Inv(v) && |table| == MAX_FILE_CHAINS && k < |Linked(v.files)| && Contains(v, Linked(v.files)[k].inode, b)
    ensures Openable(v.disk.dev) && k < |OpenVolume(v.disk.dev, table).files|
    ensures var w := OpenVolume(v.disk.dev, table);
            && WfDisk(w.disk) && WfFile(w.files[k]) && InRange(w.disk, Sectors(w.files[k]))
            && w.files[k].length == |b|
            && (ReadSlice(w.disk, w.files[k], 0, |b|) == b <==> Linked(v.files)[k].count <= SAVED_CHAINS)
  {
    ReopenReadsBack(v, table);
    var w := OpenVolume(v.disk.dev, table);
    var f := Linked(v.files)[k];
    var i := FileAt(v, f.inode, b);
    assert v.files[i] == f by { LinkedPlace(v, k, i); }
    OwnedIn(v);
    OwnedOne(v, i);
    assert WfDisk(w.disk) && w.disk.dev == v.disk.dev;
    assert Faithful(w.files[k], f);
    hide Inv, Linked, Faithful, Owned, Sectors, AllOwned, OpenVolume, Openable;
    EntryReads(v.disk, w.disk, w.files[k], f);
  }

  lemma LinkedPlace(v: Vol, k: nat, i: nat)
    requires Inv(v) && k < |Linked(v.files)| && i < |v.files| && v.files[i].inode == Linked(v.files)[k].inode
    ensures v.files[i] == Linked(v.files)[k]
  {
    UniqueIn(v);
    LinkedSorted'(v.files);
    hide Inv, Linked;
    assert Linked(v.files)[k] in v.files;
    var j :| 0 <= j < |v.files| && v.files[j] == Linked(v.files)[k];
    SamePlace(v.files, i, j);
  }

  /** End to end: create a file, let any run happen, and open the device again. The file reads as
      its writes left it, if and only if no more than 23 runs hold it. */
  lemma WrittenComesBack(s: Fs, e: Event, es: seq<Event>, table: seq<Chain>, k: nat)
    requires FsInv(s) && Allowed(s, e) && Creates(s, e) && |table| == MAX_FILE_CHAINS
    requires FsInv(Step(s, e)) && Permitted(Step(s, e), es) && AllTaken(Step(s, e), es, s.vol.next, [])
    requires var v := RunFs(Step(s, e), es).vol;
             k < |Linked(v.files)| && Linked(v.files)[k].inode == s.vol.next
    ensures var v := RunFs(Step(s, e), es).vol;
            var b := Replay(Step(s, e), es, s.vol.next, []);
            && Openable(v.disk.dev) && k < |OpenVolume(v.disk.dev, table).files|
            && var w := OpenVolume(v.disk.dev, table);
            && WfDisk(w.disk) && WfFile(w.files[k]) && InRange(w.disk, Sectors(w.files[k]))
            && w.files[k].length == |b|
            && (ReadSlice(w.disk, w.files[k], 0, |b|) == b <==> Linked(v.files)[k].count <= SAVED_CHAINS)
  {
    hide FsInv, Inv, Step, Contains, Permitted, AllTaken, Replay, RunFs, Allowed, Linked, ReadSlice, Sectors,
      OpenVolume, Openable;
    var t := Step(s, e);
    CreatedEmpty(s, e);
    NextAfterCreate(s, e);
    RunReplays(t, es, s.vol.next, []);
    var v := RunFs(t, es).vol;
    LinkedSorted'(v.files);
    assert Linked(v.files)[k] in v.files;
    InvOfStep(RunFs(t, es));
    NextMountReads(v, table, k, Replay(t, es, s.vol.next, []));
  }

  lemma NextAfterCreate(s: Fs, e: Event)
    requires FsInv(s) && Allowed(s, e) && Creates(s, e)
    ensures s.vol.next < Step(s, e).vol.next
  {
    var k, f := CreateFiles(s, e);
    StepKeeps(s, e);
    InodeBelow(Step(s, e), k);
  }
}
