/** A formatted volume, and reading a volume back from its device. */
module Reopen {
  import opened Bytes
  import opened SectorMap
  import opened Chains
  import opened FileModel
  import opened FileLaws
  import opened Ownership
  import opened Directory
  import opened VolumeModel
  import opened VolumeOps
  import opened FuseModel
  import opened FuseRuns

  const FIRST_INODE: nat := 100

  // ----- format

  /** The bitmap of a new volume: the two system sectors, and every byte from the one that holds
      the first sector past the end. */
  function NewBitmap(was: seq<byte>, sectors: nat): (b: seq<byte>)
    requires |was| == MAX_SECTORS / 8
    ensures |b| == MAX_SECTORS / 8
  {
    seq(MAX_SECTORS / 8, j requires 0 <= j < MAX_SECTORS / 8 => if j >= sectors / 8 then 255 else if j == 0 then 3 else was[j])
  }

  /** The volume header that format leaves. */
  function Formatted(was: seq<byte>, name: seq<byte>, sectors: nat, secPerTrk: byte, tracks: byte, sides: byte, density: byte)
    : (vol: seq<byte>)
    requires |was| == SECTOR && |name| <= NAME_LEN
    ensures |vol| == SECTOR
  {
    TiName(name) + [Byte(sectors / 256), Byte(sectors), secPerTrk, 68, 83, 75, 32, tracks, sides, density]
      + was[20..BITMAP_AT] + NewBitmap(was[BITMAP_AT..BITMAP_AT + MAX_SECTORS / 8], sectors) + seq(20, _ => 255)
  }

  /** format's loop over the sectors the volume does not have, eight at a time. */
  method MarkUnavailable(vol: array<byte>, sectors: nat)
    requires vol.Length == SECTOR
    modifies vol
    ensures forall k :: 0 <= k < SECTOR ==>
              vol[k] == if BITMAP_AT + sectors / 8 <= k < BITMAP_AT + MAX_SECTORS / 8 then 255 else old(vol[k])
  {
    var i := sectors;
    ghost var m := 0;
    while i < MAX_SECTORS
      invariant i == sectors + 8 * m && i / 8 == sectors / 8 + m
      invariant forall k :: 0 <= k < SECTOR ==>
                  vol[k] == if BITMAP_AT + sectors / 8 <= k < BITMAP_AT + sectors / 8 + m && k < BITMAP_AT + MAX_SECTORS / 8 then 255
                            else old(vol[k])
    {
      vol[BITMAP_AT + i / 8] := 255;
      i, m := i + 8, m + 1;
    }
  }

  method Format(vol: array<byte>, name: seq<byte>, secPerTrk: byte, tracks: byte, sides: byte, density: byte)
    requires vol.Length == SECTOR && |name| <= NAME_LEN
    modifies vol
    ensures vol[..] == Formatted(old(vol[..]), name, tracks * secPerTrk * sides, secPerTrk, tracks, sides, density)
  {
    hide TiName, NewBitmap;
    ghost var was := vol[..];
    var sectors: nat := tracks * secPerTrk * sides;
    var head := TiName(name) + [Byte(sectors / 256), Byte(sectors), secPerTrk, 68, 83, 75, 32, tracks, sides, density];
    forall k | 0 <= k < 20 { vol[k] := head[k]; }
    vol[BITMAP_AT] := 3;
    MarkUnavailable(vol, sectors);
    forall k | BITMAP_AT + MAX_SECTORS / 8 <= k < SECTOR { vol[k] := 255; }
    FormattedAt(was, name, sectors, secPerTrk, tracks, sides, density, vol[..], head);
  }

  lemma FormattedAt(was: seq<byte>, name: seq<byte>, sectors: nat, secPerTrk: byte, tracks: byte, sides: byte, density: byte,
                    vol: seq<byte>, head: seq<byte>)
    requires |was| == |vol| == SECTOR && |name| <= NAME_LEN
    requires head == TiName(name) + [Byte(sectors / 256), Byte(sectors), secPerTrk, 68, 83, 75, 32, tracks, sides, density]
    requires forall k :: 0 <= k < SECTOR ==>
               vol[k] == if k < 20 then head[k]
                         else if k >= BITMAP_AT + MAX_SECTORS / 8 || k >= BITMAP_AT + sectors / 8 then 255
                         else if k == BITMAP_AT then 3 else was[k]
    ensures vol == Formatted(was, name, sectors, secPerTrk, tracks, sides, density)
  {
    hide TiName;
    var f := Formatted(was, name, sectors, secPerTrk, tracks, sides, density);
    var map1 := was[BITMAP_AT..BITMAP_AT + MAX_SECTORS / 8];
    assert f == head + was[20..BITMAP_AT] + NewBitmap(map1, sectors) + seq(20, _ => 255);
    forall k | 0 <= k < SECTOR ensures vol[k] == f[k] {
      if BITMAP_AT <= k < BITMAP_AT + MAX_SECTORS / 8 {
        assert f[k] == NewBitmap(map1, sectors)[k - BITMAP_AT];
      }
    }
  }

  lemma {:induction false} NoBits(j: nat)
    ensures TestBit(0, j) == 0
  {
    if j > 0 {
      NoBits(j - 1);
    }
  }

  lemma {:induction false} LowBits(n: nat, j: nat)
    requires j < n
    ensures TestBit(Pow2(n) - 1, j) == 1
  {
    assert (Pow2(n) - 1) / 2 == Pow2(n - 1) - 1 && (Pow2(n) - 1) % 2 == 1;
    if j > 0 {
      LowBits(n - 1, j - 1);
    }
  }

  lemma NewBits(j: nat)
    requires j < 8
    ensures TestBit(255, j) == 1 && TestBit(3, j) == (if j < 2 then 1 else 0)
  {
    assert Pow2(8) == 256 && Pow2(2) == 4;
    LowBits(8, j);
    if j < 2 {
      LowBits(2, j);
    } else {
      assert TestBit(3, j) == TestBit(1, j - 1) == TestBit(0, j - 2);
      NoBits(j - 2);
    }
  }

  /** A blank image of the given number of sectors with the new header in sector 0. */
  function NewImage(vol: seq<byte>, sectors: nat): (dev: seq<seq<byte>>)
    requires |vol| == SECTOR && 2 <= sectors <= MAX_SECTORS
    ensures |dev| == sectors && forall s :: 0 <= s < sectors ==> |dev[s]| == SECTOR
  {
    [vol] + seq(sectors - 1, _ => Blank())
  }

  function Blank(): (b: seq<byte>)
    ensures |b| == SECTOR
  {
    seq(SECTOR, _ => 0)
  }

  /** What the parts of a new header that matter here look like: the sector count and the bitmap. */
  ghost predicate IsNew(vol: seq<byte>, sectors: nat) {
    && |vol| == SECTOR && HeaderCount(vol) == sectors
    && vol[BITMAP_AT..BITMAP_AT + MAX_SECTORS / 8] == NewBitmap(Blank()[BITMAP_AT..BITMAP_AT + MAX_SECTORS / 8], sectors)
  }

  /** What format leaves in a zeroed header is a new header, its count included. */
  lemma FormattedIsNew(name: seq<byte>, sectors: nat, secPerTrk: byte, tracks: byte, sides: byte, density: byte)
    requires |name| <= NAME_LEN && sectors < 0x10000
    ensures IsNew(Formatted(Blank(), name, sectors, secPerTrk, tracks, sides, density), sectors)
  {
    hide TiName, NewBitmap;
    var f := Formatted(Blank(), name, sectors, secPerTrk, tracks, sides, density);
    var head := TiName(name) + [Byte(sectors / 256), Byte(sectors), secPerTrk, 68, 83, 75, 32, tracks, sides, density];
    assert f[..20] == head;
    assert f[COUNT_AT] == head[COUNT_AT] == sectors / 256 && f[COUNT_AT + 1] == head[COUNT_AT + 1] == sectors % 256;
  }

  lemma NewUsed(vol: seq<byte>, sectors: nat, s: nat)
    requires IsNew(vol, sectors) && s < MAX_SECTORS
    ensures Used(vol, s) <==> s < 2 || s / 8 >= sectors / 8
  {
    hide TestBit;
    var j := s / 8;
    assert vol[BITMAP_AT + j] == vol[BITMAP_AT..BITMAP_AT + MAX_SECTORS / 8][j];
    NewBits(s % 8);
    NoBits(s % 8);
  }

  // ----- open

  /** readDirectory: a file for each listed sector, numbered in turn and put in its place. */
  function ReadAll(dev: seq<seq<byte>>, ds: seq<int>, next: nat, table: seq<Chain>): (fs: seq<File>)
    requires Readable(dev, ds) && |table| == MAX_FILE_CHAINS
    ensures |fs| == |ds| && WfFiles(fs)
  {
    if ds == [] then []
    else
      var n := |ds| - 1;
      Added(ReadAll(dev, ds[..n], next, table), ReadOne(dev, ds[n], next + n, table))
  }

  ghost predicate Readable(dev: seq<seq<byte>>, ds: seq<int>) {
    forall i :: 0 <= i < |ds| ==> 0 <= ds[i] < |dev| && |dev[ds[i]]| == SECTOR
  }

  function ReadOne(dev: seq<seq<byte>>, dir: int, inode: nat, table: seq<Chain>): (f: File)
    requires 0 <= dir < |dev| && |dev[dir]| == SECTOR && |table| == MAX_FILE_CHAINS
    ensures WfFile(f) && f.hdr == dev[dir] && f.dir == dir && f.inode == inode && f.refs == 0 && !f.unlinked && !f.dirty
    ensures f.leaked == 0
  {
    ReadEntry(NewFile(inode, [], table).(dir := dir), dev[dir])
  }

  ghost predicate Openable(dev: seq<seq<byte>>) {
    && |dev| >= 2 && WfDisk(Disk(dev[0], dev, false)) && HeaderCount(dev[0]) == |dev|
    && Readable(dev, ListedFrom(dev[DIR_HDR_SECTOR], 0))
  }

  /** open: the header, then the directory. */
  function OpenVolume(dev: seq<seq<byte>>, table: seq<Chain>): Vol
    requires Openable(dev) && |table| == MAX_FILE_CHAINS
  {
    var ds := ListedFrom(dev[DIR_HDR_SECTOR], 0);
    Vol(Disk(dev[0], dev, false), dev[DIR_HDR_SECTOR], false, ReadAll(dev, ds, FIRST_INODE, table), FIRST_INODE + |ds|)
  }

  // ----- a formatted volume

  lemma NewOpens(vol: seq<byte>, sectors: nat, table: seq<Chain>)
    requires |vol| == SECTOR && HeaderCount(vol) == sectors && 2 <= sectors <= MAX_SECTORS && |table| == MAX_FILE_CHAINS
    ensures Openable(NewImage(vol, sectors))
    ensures OpenVolume(NewImage(vol, sectors), table) == Vol(Disk(vol, NewImage(vol, sectors), false), Blank(), false, [], FIRST_INODE)
    ensures DirBytes([]) == Blank()
  {
    assert NewImage(vol, sectors)[DIR_HDR_SECTOR] == Blank();
    assert EntryAt(Blank(), 0) == 0;
    assert ListedFrom(Blank(), 0) == [];
  }

  lemma NoFilesSound(d: Disk, hdr: seq<byte>, next: nat)
    requires WfDisk(d) && Synced(d) && hdr == DirBytes([]) && d.dev[DIR_HDR_SECTOR] == hdr
    ensures Inv(Vol(d, hdr, false, [], next)) <==> Exact(d, [])
  {
    hide Used, Exact;
    assert Linked([]) == [] && Dirs([]) == [];
  }

  /** A freshly formatted volume has no files, and its bitmap is exact if and only if the number
      of sectors is a multiple of 8, or there is nothing but the two system sectors. */
  lemma FormatLaw(vol: seq<byte>, sectors: nat, table: seq<Chain>)
    requires IsNew(vol, sectors) && 2 <= sectors <= MAX_SECTORS && |table| == MAX_FILE_CHAINS
    ensures Openable(NewImage(vol, sectors)) && OpenVolume(NewImage(vol, sectors), table).files == []
    ensures Inv(OpenVolume(NewImage(vol, sectors), table)) <==> sectors % 8 == 0 || sectors == 2
  {
    NewOpens(vol, sectors, table);
    hide Used, IsNew, OpenVolume, Inv, DirBytes, Openable;
    var d := Disk(vol, NewImage(vol, sectors), false);
    NoFilesSound(d, Blank(), FIRST_INODE);
    if sectors % 8 == 0 || sectors == 2 {
      forall s | 0 <= s < sectors ensures Used(vol, s) <==> s < 2 || Holds([], s) {
        NewUsed(vol, sectors, s);
      }
    } else {
      NewUsed(vol, sectors, sectors - 1);
      assert !Holds([], sectors - 1);
      assert !Exact(d, []);
    }
  }

  /** Every run of the mount from a freshly formatted volume keeps the allocation invariant, the
      directory's order and the handles' bookkeeping. */
  lemma EveryRunIsSound(vol: seq<byte>, sectors: nat, table: seq<Chain>, es: seq<Event>)
    requires IsNew(vol, sectors) && 2 <= sectors <= MAX_SECTORS && (sectors % 8 == 0 || sectors == 2) && |table| == MAX_FILE_CHAINS
    ensures Openable(NewImage(vol, sectors))
    ensures var s := Mounted(OpenVolume(NewImage(vol, sectors), table));
            && FsInv(s)
            && (Permitted(s, es) ==>
                  var r := RunFs(s, es);
                  Allocated(r.vol.disk, r.vol.files) && Sorted(r.vol.files) && PoolOk(r.free, r.file)
                  && AllRefsOk(r.vol.files, r.file) && HandlesLive(r.vol.files, r.file))
  {
    hide Inv, Mounted, Permitted, RunFs, PoolOk, AllRefsOk, HandlesLive, OpenVolume, NewBitmap;
    FormatLaw(vol, sectors, table);
    var v := OpenVolume(NewImage(vol, sectors), table);
    MountKeeps(v);
    var s := Mounted(v);
    if Permitted(s, es) {
      InvSorted(RunFs(s, es).vol);
    }
  }

  /** The two for the header that format writes, of any name and geometry, over a zeroed one. */
  lemma FormatThenRun(name: seq<byte>, sectors: nat, secPerTrk: byte, tracks: byte, sides: byte, density: byte,
                      table: seq<Chain>, es: seq<Event>)
    requires |name| <= NAME_LEN && sectors == tracks * secPerTrk * sides && 2 <= sectors <= MAX_SECTORS
    requires |table| == MAX_FILE_CHAINS
    ensures var dev := NewImage(Formatted(Blank(), name, sectors, secPerTrk, tracks, sides, density), sectors);
            && Openable(dev) && OpenVolume(dev, table).files == []
            && (Inv(OpenVolume(dev, table)) <==> sectors % 8 == 0 || sectors == 2)
            && (sectors % 8 == 0 || sectors == 2 ==>
                  var s := Mounted(OpenVolume(dev, table));
                  && FsInv(s)
                  && (Permitted(s, es) ==>
                        var v := RunFs(s, es).vol;
                        Allocated(v.disk, v.files) && Sorted(v.files) && HeaderCount(v.disk.dev[VOL_HDR_SECTOR]) == |v.disk.dev|))
  {
    hide Inv, FsInv, Mounted, Permitted, RunFs, OpenVolume, Formatted, NewImage, IsNew, Openable, HeaderCount;
    FormattedIsNew(name, sectors, secPerTrk, tracks, sides, density);
    var vol := Formatted(Blank(), name, sectors, secPerTrk, tracks, sides, density);
    FormatLaw(vol, sectors, table);
    if sectors % 8 == 0 || sectors == 2 {
      EveryRunIsSound(vol, sectors, table, es);
      var s := Mounted(OpenVolume(NewImage(vol, sectors), table));
      if Permitted(s, es) {
        InvIn(RunFs(s, es));
        CountOnDevice(RunFs(s, es).vol);
      }
    }
  }

  lemma InvSorted(v: Vol)
    requires Inv(v)
    ensures Allocated(v.disk, v.files) && Sorted(v.files)
  {
    hide Allocated, UniqueInodes, Sorted, EntriesOk, Linked, DirBytes;
  }

  // ----- reading a volume back

  ghost predicate LinkedOnDevice(d: Disk, ls: seq<File>) {
    && WfDisk(d) && WfFiles(ls)
    && forall k :: 0 <= k < |ls| ==> 0 < ls[k].dir < |d.dev| && d.dev[ls[k].dir] == ls[k].hdr
  }

  lemma LinkedThere(v: Vol)
    requires Inv(v)
    ensures LinkedOnDevice(v.disk, Linked(v.files)) && Sorted(Linked(v.files))
  {
    hide Linked, Sorted, Allocated, UniqueInodes, DirBytes, EncodeChains;
    assert WfFiles(v.files) by { SteadyWf(v); }
    LinkedSorted(v.files);
    var ls := Linked(v.files);
    SteadyWf(v);
    forall k | 0 <= k < |ls| ensures 0 < ls[k].dir < |v.disk.dev| && v.disk.dev[ls[k].dir] == ls[k].hdr {
      assert ls[k] in v.files;
      var i :| 0 <= i < |v.files| && v.files[i] == ls[k];
      assert EntryOk(v.disk, v.files[i]);
      DirAbove(v.disk, v.files, i);
    }
  }

  lemma InOrder(fs: seq<File>, i: nat, j: nat)
    requires WfFiles(fs) && Sorted(fs) && i < j < |fs|
    ensures !Less(Name(fs[j]), Name(fs[i]))
  {
    hide Less;
  }

  lemma SameName(f: File, g: File)
    requires WfFile(f) && WfFile(g) && f.hdr == g.hdr
    ensures Name(f) == Name(g)
  {
  }

  lemma ReadOnesOrdered(d: Disk, ls: seq<File>, table: seq<Chain>, n: nat, front: seq<File>)
    requires LinkedOnDevice(d, ls) && Sorted(ls) && |table| == MAX_FILE_CHAINS && 0 < n <= |ls| && |front| == n - 1
    requires forall k :: 0 <= k < n - 1 ==> front[k] == ReadOne(d.dev, ls[k].dir, FIRST_INODE + k, table)
    ensures WfFiles(front)
    ensures forall i :: 0 <= i < n - 1 ==>
              !Less(Name(ReadOne(d.dev, ls[n - 1].dir, FIRST_INODE + (n - 1), table)), Name(front[i]))
  {
    hide Less, Name, Sorted;
    var f := ReadOne(d.dev, ls[n - 1].dir, FIRST_INODE + (n - 1), table);
    forall i | 0 <= i < n - 1 ensures !Less(Name(f), Name(front[i])) {
      InOrder(ls, i, n - 1);
      SameName(front[i], ls[i]);
      SameName(f, ls[n - 1]);
    }
  }

  /** The list readDirectory builds from the first n linked files is in their order. */
  lemma {:induction false} ReadInOrder(d: Disk, ls: seq<File>, table: seq<Chain>, n: nat)
    requires LinkedOnDevice(d, ls) && Sorted(ls) && |table| == MAX_FILE_CHAINS && n <= |ls|
    ensures Readable(d.dev, Dirs(ls)[..n])
    ensures var fs := ReadAll(d.dev, Dirs(ls)[..n], FIRST_INODE, table);
            forall k :: 0 <= k < n ==> fs[k] == ReadOne(d.dev, ls[k].dir, FIRST_INODE + k, table)
  {
    hide Less, ReadOne, Name, Sorted, Dirs, Added;
    if n > 0 {
      ReadInOrder(d, ls, table, n - 1);
      var ds := Dirs(ls)[..n];
      assert ds[..n - 1] == Dirs(ls)[..n - 1];
      var front := ReadAll(d.dev, ds[..n - 1], FIRST_INODE, table);
      var f := ReadOne(d.dev, ds[n - 1], FIRST_INODE + (n - 1), table);
      assert ds[n - 1] == ls[n - 1].dir;
      ReadOnesOrdered(d, ls, table, n, front);
      AddedLast(front, f);
    }
  }

  /** g is what the entry of f says: name and attributes, the first 23 runs, and the length when
      the sizes agree. */
  ghost predicate Faithful(g: File, f: File) {
    && WfFile(g) && WfFile(f) && g.dir == f.dir && g.hdr == f.hdr && !g.dirty && !g.unlinked && g.refs == 0 && g.leaked == 0
    && Runs(g) == Runs(f)[..Min(SAVED_CHAINS, f.count)] && (Sized(f) ==> g.length == f.length)
  }

  ghost predicate ReadBack(fs: seq<File>, ls: seq<File>) {
    && |fs| == |ls|
    && forall k :: 0 <= k < |ls| ==> Faithful(fs[k], ls[k]) && fs[k].inode == FIRST_INODE + k
  }

  lemma ListedLinked(v: Vol)
    requires Inv(v)
    ensures WfVol(v) && LinkedOnDevice(v.disk, Linked(v.files)) && Sorted(Linked(v.files))
    ensures ListedFrom(v.disk.dev[DIR_HDR_SECTOR], 0) == Dirs(Linked(v.files))
  {
    SteadyOf(v);
    LinkedThere(v);
    hide Linked, Sorted, Steady, DirBytes, ListedFrom;
    DirRoundTrip(Dirs(Linked(v.files)));
  }

  lemma CountOnDevice(v: Vol)
    requires Inv(v)
    ensures WfDisk(v.disk) && HeaderCount(v.disk.dev[VOL_HDR_SECTOR]) == |v.disk.dev|
  {
    hide Allocated, UniqueInodes, Sorted, EntriesOk, Linked, DirBytes, MarkedOnDevice;
  }

  /** Opening the device again lists the linked files and no others, in the same order. */
  lemma ReopenReadsBack(v: Vol, table: seq<Chain>)
    requires Inv(v) && |table| == MAX_FILE_CHAINS
    ensures Openable(v.disk.dev) && ReadBack(OpenVolume(v.disk.dev, table).files, Linked(v.files))
  {
    hide Linked, Sorted, Inv, Faithful, ReadAll, ListedFrom, ReadOne, Dirs, WfFiles, DirsOnDisk;
    CountOnDevice(v);
    ListedLinked(v);
    var ls := Linked(v.files);
    var ds := Dirs(ls);
    assert ds[..|ls|] == ds;
    ReadInOrder(v.disk, ls, table, |ls|);
    var fs := ReadAll(v.disk.dev, ds, FIRST_INODE, table);
    assert OpenVolume(v.disk.dev, table).files == fs;
    forall k | 0 <= k < |ls|
      ensures Faithful(fs[k], ls[k]) && fs[k].inode == FIRST_INODE + k
    {
      ReadOneFaithful(v, ls[k], FIRST_INODE + k, table);
    }
  }

  lemma ReadOneFaithful(v: Vol, f: File, inode: nat, table: seq<Chain>)
    requires Inv(v) && f in Linked(v.files) && |table| == MAX_FILE_CHAINS
    ensures WfDisk(v.disk) && 0 <= f.dir < |v.disk.dev|
    ensures Faithful(ReadOne(v.disk.dev, f.dir, inode, table), f)
  {
    hide Linked, Sorted, UniqueInodes, DirBytes, EncodeChains, Walk, SecCount, Used, Apart, Exact;
    SteadyWf(v);
    LinkedSorted(v.files);
    var i :| 0 <= i < |v.files| && v.files[i] == f;
    assert EntryOk(v.disk, v.files[i]);
    assert Owned(v.disk, v.files[i]);
    EntryFaithful(v.disk, f, NewFile(inode, [], table).(dir := f.dir));
  }

  // ----- when the reopened volume is sound again

  lemma {:induction false} LinkedHas(fs: seq<File>, i: nat)
    requires i < |fs| && !fs[i].unlinked
    ensures fs[i] in Linked(fs)
  {
    if i < |fs| - 1 {
      LinkedHas(fs[..|fs| - 1], i);
    }
  }

  lemma {:induction false} AllLinked(fs: seq<File>)
    requires forall i :: 0 <= i < |fs| ==> !fs[i].unlinked
    ensures Linked(fs) == fs
  {
    if fs != [] {
      AllLinked(fs[..|fs| - 1]);
    }
  }

  ghost predicate Restorable(fs: seq<File>) {
    forall i :: 0 <= i < |fs| ==> !fs[i].unlinked && fs[i].count <= SAVED_CHAINS
  }

  lemma SameOwns(g: File, f: File)
    requires Faithful(g, f)
    ensures forall s :: s in Owns(g) ==> s in Owns(f)
    ensures f.count <= SAVED_CHAINS ==> Owns(g) == Owns(f) && Runs(g) == Runs(f)
  {
    hide Walk;
    WalkPrefix(Runs(f), Min(SAVED_CHAINS, f.count));
    assert f.count <= SAVED_CHAINS ==> Runs(f)[..f.count] == Runs(f);
  }

  /** With more than 23 runs the entry read back has fewer sectors than it says. */
  lemma TooManyRuns(d: Disk, g: File, f: File)
    requires Faithful(g, f) && Owned(d, f) && f.count > SAVED_CHAINS
    ensures !Owned(d, g)
  {
    hide SecCount, Used, Walk;
    var cs := Runs(f);
    WalkNext(cs, SAVED_CHAINS);
    WalkPrefix(cs, SAVED_CHAINS + 1);
    assert Sectors(g) == Walk(cs[..SAVED_CHAINS]);
    assert |Range(cs[SAVED_CHAINS].start, cs[SAVED_CHAINS].end)| > 0;
  }

  lemma ReadBackAllocated(d: Disk, d': Disk, gs: seq<File>, fs: seq<File>)
    requires ReadBack(gs, fs) && Restorable(fs) && Allocated(d, fs) && WfDisk(d') && d'.dev == d.dev
    requires forall s :: 0 <= s < |d.dev| ==> (Used(d'.vol, s) <==> Used(d.vol, s))
    ensures Allocated(d', gs)
  {
    hide SecCount, Used, Walk, Owns;
    forall k | 0 <= k < |gs| ensures Owned(d', gs[k]) && Owns(gs[k]) == Owns(fs[k]) {
      SameOwns(gs[k], fs[k]);
      assert Owned(d, fs[k]);
      StillOwned(d, d', fs[k]);
    }
    forall s | 0 <= s < |d.dev| ensures Holds(gs, s) <==> Holds(fs, s) {
    }
  }

  lemma ReadBackSorted(gs: seq<File>, fs: seq<File>)
    requires ReadBack(gs, fs) && WfFiles(fs) && Sorted(fs)
    ensures WfFiles(gs) && Sorted(gs) && UniqueInodes(gs)
  {
    hide Less, Runs, Sized;
    forall i, j | 0 <= i < j < |gs| ensures !Less(Name(gs[j]), Name(gs[i])) {
      assert Name(gs[i]) == Name(fs[i]) && Name(gs[j]) == Name(fs[j]);
    }
  }

  lemma ReadBackEntries(d: Disk, d': Disk, gs: seq<File>, fs: seq<File>, next: nat)
    requires ReadBack(gs, fs) && Restorable(fs) && EntriesOk(d, fs, next) && WfDisk(d') && d'.dev == d.dev && Clean(fs)
    ensures EntriesOk(d', gs, FIRST_INODE + |fs|) && Clean(gs)
  {
    hide EncodeChains, Walk, Sized;
    forall k | 0 <= k < |gs| ensures gs[k].inode < FIRST_INODE + |fs| && EntryOk(d', gs[k]) {
      SameOwns(gs[k], fs[k]);
      assert EntryOk(d, fs[k]);
    }
  }

  lemma {:induction false} ReadBackLinked(gs: seq<File>, fs: seq<File>)
    requires ReadBack(gs, fs) && Restorable(fs)
    ensures Linked(gs) == gs && Linked(fs) == fs && Dirs(gs) == Dirs(fs)
  {
    AllLinked(gs);
    AllLinked(fs);
  }

  lemma StaleSector(d: Disk, d': Disk, gs: seq<File>, fs: seq<File>, i: nat)
    requires Allocated(d, fs) && ReadBack(gs, Linked(fs)) && i < |fs| && fs[i].unlinked
    requires WfDisk(d') && |d'.dev| == |d.dev|
    requires forall s :: 0 <= s < |d.dev| && Used(d.vol, s) ==> Used(d'.vol, s)
    ensures !Allocated(d', gs)
  {
    hide Used, Owned, Linked, Exact;
    DirUsed(d, fs, i);
    var t := fs[i].dir;
    assert t in Owns(fs[i]);
    LinkedSorted'(fs);
    assert WfFiles(gs);
    forall k | 0 <= k < |gs| ensures t !in Owns(gs[k]) {
      SameOwns(gs[k], Linked(fs)[k]);
      assert Linked(fs)[k] in fs;
      var j :| 0 <= j < |fs| && fs[j] == Linked(fs)[k];
      assert j != i;
    }
    NotExact(d', gs, t);
  }

  lemma NotExact(d: Disk, fs: seq<File>, t: nat)
    requires WfDisk(d) && WfFiles(fs) && 2 <= t < |d.dev| && Used(d.vol, t) && !Holds(fs, t)
    ensures !Allocated(d, fs)
  {
    hide Used, Holds;
  }

  lemma {:induction false} LinkedSorted'(fs: seq<File>)
    ensures forall f :: f in Linked(fs) ==> f in fs && !f.unlinked
  {
    if fs != [] {
      LinkedSorted'(fs[..|fs| - 1]);
    }
  }

  lemma CutShort(d: Disk, d': Disk, gs: seq<File>, fs: seq<File>, i: nat)
    requires Allocated(d, fs) && ReadBack(gs, Linked(fs)) && i < |fs| && !fs[i].unlinked && fs[i].count > SAVED_CHAINS
    requires WfDisk(d') && |d'.dev| == |d.dev|
    requires forall s :: 0 <= s < |d.dev| && Used(d.vol, s) ==> Used(d'.vol, s)
    ensures !Allocated(d', gs)
  {
    hide Used, Owned, Linked, Exact, Apart, Faithful;
    LinkedHas(fs, i);
    var k :| 0 <= k < |gs| && Linked(fs)[k] == fs[i];
    assert Owned(d, fs[i]);
    StillOwned(d, d', fs[i]);
    TooManyRuns(d', gs[k], fs[i]);
  }

  /** The bitmap on the device marks exactly the sectors that are marked in memory. */
  ghost predicate BitmapOnDevice(d: Disk)
    requires WfDisk(d)
  {
    forall s :: 0 <= s < |d.dev| ==> (Used(d.dev[VOL_HDR_SECTOR], s) <==> Used(d.vol, s))
  }

  /** Whatever the directory gives back, a bitmap that marks other sectors is not exact for it. */
  lemma StaleBitmap(d: Disk, d': Disk, gs: seq<File>, fs: seq<File>, s: nat)
    requires Allocated(d, fs) && ReadBack(gs, fs) && Restorable(fs) && s < |d.dev|
    requires WfDisk(d') && |d'.dev| == |d.dev| && !(Used(d'.vol, s) <==> Used(d.vol, s))
    ensures !Allocated(d', gs)
  {
    hide Used, Walk, Owns, Owned, Apart;
    forall k | 0 <= k < |gs| ensures WfFile(gs[k]) && Owns(gs[k]) == Owns(fs[k]) {
      SameOwns(gs[k], fs[k]);
    }
    assert WfFiles(gs) && (Holds(gs, s) <==> Holds(fs, s));
  }

  /** A volume opens as a sound volume again if and only if no unlinked file was still held, no
      file has more than 23 runs, and the bitmap on the device is the one in memory. */
  lemma ReopenSound(v: Vol, table: seq<Chain>)
    requires Inv(v) && |table| == MAX_FILE_CHAINS
    ensures Openable(v.disk.dev) && WfDisk(v.disk)
    ensures Inv(OpenVolume(v.disk.dev, table)) <==> Restorable(v.files) && BitmapOnDevice(v.disk)
  {
    hide *;
    ReopenReadsBack(v, table);
    OpenedDisk(v, table);
    var w := OpenVolume(v.disk.dev, table);
    if Restorable(v.files) && BitmapOnDevice(v.disk) {
      SoundlyOpened(v, w);
    } else if Inv(w) {
      InvSorted(w);
      UnsoundlyOpened(v, w);
    }
  }

  /** What opening makes of a volume, as far as its soundness goes. */
  ghost predicate Opens(v: Vol, w: Vol) {
    && WfDisk(v.disk) && Synced(v.disk) && WfFiles(v.files) && Allocated(v.disk, v.files) && Sorted(v.files)
    && EntriesOk(v.disk, v.files, v.next) && Clean(v.files)
    && |Linked(v.files)| <= MAX_ENTRIES && v.disk.dev[DIR_HDR_SECTOR] == DirBytes(Dirs(Linked(v.files)))
    && w.disk == Disk(v.disk.dev[VOL_HDR_SECTOR], v.disk.dev, false) && WfDisk(w.disk)
    && w.dirHdr == v.disk.dev[DIR_HDR_SECTOR] && !w.dirDirty && w.next == FIRST_INODE + |w.files|
    && ReadBack(w.files, Linked(v.files))
  }

  lemma SoundlyOpened(v: Vol, w: Vol)
    requires Opens(v, w) && Restorable(v.files) && BitmapOnDevice(v.disk)
    ensures Inv(w)
  {
    hide Inv, Sorted, Allocated, EntriesOk, UniqueInodes, Clean, ReadBack, Linked, DirBytes, Used, Restorable, Synced, Dirs;
    AllUnlinked(v.files);
    ReadBackAllocated(v.disk, w.disk, w.files, v.files);
    ReadBackSorted(w.files, v.files);
    ReadBackEntries(v.disk, w.disk, w.files, v.files, v.next);
    ReadBackLinked(w.files, v.files);
    ReadBackSize(w.files, v.files);
    SoundAgain(v, w);
  }

  lemma AllUnlinked(fs: seq<File>)
    requires Restorable(fs)
    ensures Linked(fs) == fs
  {
    AllLinked(fs);
  }

  lemma UnsoundlyOpened(v: Vol, w: Vol)
    requires Opens(v, w) && !(Restorable(v.files) && BitmapOnDevice(v.disk))
    ensures !Allocated(w.disk, w.files)
  {
    hide Inv, Sorted, Allocated, EntriesOk, UniqueInodes, Clean, ReadBack, Linked, DirBytes, Used, Dirs;
    if Restorable(v.files) {
      AllUnlinked(v.files);
      var s: int :| 0 <= s < |v.disk.dev| && !(Used(v.disk.dev[VOL_HDR_SECTOR], s) <==> Used(v.disk.vol, s));
      StaleBitmap(v.disk, w.disk, w.files, v.files, s);
    } else {
      var i :| 0 <= i < |v.files| && !(!v.files[i].unlinked && v.files[i].count <= SAVED_CHAINS);
      if v.files[i].unlinked {
        StaleSector(v.disk, w.disk, w.files, v.files, i);
      } else {
        CutShort(v.disk, w.disk, w.files, v.files, i);
      }
    }
  }

  lemma OpenedDisk(v: Vol, table: seq<Chain>)
    requires Inv(v) && |table| == MAX_FILE_CHAINS && Openable(v.disk.dev)
    requires ReadBack(OpenVolume(v.disk.dev, table).files, Linked(v.files))
    ensures WfDisk(v.disk) && Opens(v, OpenVolume(v.disk.dev, table))
  {
    hide AllOwned, Apart, Exact, Sorted, EntriesOk, UniqueInodes, Clean, Linked, DirBytes, ListedFrom, ReadAll, Dirs, Used,
      ReadBack, MarkedOnDevice;
  }

  /** Closing the last handle of an unlinked file frees its sectors in memory only: until the
      next flush the volume does not open as a sound one. */
  lemma LastCloseUnflushed(v: Vol, i: nat, table: seq<Chain>)
    requires Inv(v) && i < |v.files| && v.files[i].unlinked && v.files[i].refs == 1 && |table| == MAX_FILE_CHAINS
    ensures var w := FileClose(v, i);
            && WfDisk(w.disk) && w.disk.changed && !BitmapOnDevice(w.disk) && w.files == RemoveAt(v.files, i)
            && Openable(w.disk.dev) && !Inv(OpenVolume(w.disk.dev, table))
  {
    var w := FileClose(v, i);
    ReopenSound(w, table);
    ClosedDisk(v, i);
    hide Inv, Used, FileClose, OpenVolume, Openable, Restorable, FreeFile;
    var t := v.files[i].dir;
    assert Used(w.disk.dev[VOL_HDR_SECTOR], t) && !Used(w.disk.vol, t);
  }

  lemma ClosedDisk(v: Vol, i: nat)
    requires Inv(v) && i < |v.files| && v.files[i].unlinked && v.files[i].refs == 1
    ensures var w := FileClose(v, i);
            && WfDisk(w.disk) && w.disk.changed && w.files == RemoveAt(v.files, i)
            && 0 <= v.files[i].dir < |w.disk.dev|
            && Used(w.disk.dev[VOL_HDR_SECTOR], v.files[i].dir) && !Used(w.disk.vol, v.files[i].dir)
  {
    hide Inv, Used, FreeFile, Sound, Walk, FileClose, AllOwned, Allocated, HeaderCount, RemoveAt;
    OwnedIn(v);
    OwnedOne(v, i);
    SyncedIn(v);
    ClosedIs(v, i);
    var f := v.files[i].(refs := 0);
    OwnedRecount(v.disk, v.files[i], 0);
    FreeFileUsed(v.disk, f, f.dir);
  }

  lemma OwnedRecount(d: Disk, f: File, refs: nat)
    requires Owned(d, f)
    ensures Owned(d, f.(refs := refs)) && f.dir in Owns(f.(refs := refs)) && Used(d.vol, f.dir) && 2 <= f.dir < |d.dev|
  {
    hide Used, Walk;
  }

  lemma SyncedIn(v: Vol)
    requires Inv(v)
    ensures Synced(v.disk)
  {
    hide Allocated, UniqueInodes, Sorted, Synced, EntriesOk, Linked, DirBytes;
  }

  lemma ClosedIs(v: Vol, i: nat)
    requires Inv(v) && i < |v.files| && v.files[i].unlinked && v.files[i].refs == 1
    ensures var f := v.files[i].(refs := 0);
            && WfDisk(v.disk) && WfFile(f) && RunsOnDisk(v.disk, Runs(f)) && 0 <= f.dir < |v.disk.dev|
            && FileClose(v, i).disk == FreeFile(v.disk, f) && FileClose(v, i).files == RemoveAt(v.files, i)
  {
    hide Inv, FreeFile, AllOwned, Allocated, Used, Sound, Walk;
    OwnedIn(v);
    OwnedOne(v, i);
    var f := v.files[i].(refs := 0);
    OwnedRecount(v.disk, v.files[i], 0);
    RunsAllocated(v.disk, f);
    assert RemoveAt(v.files[i := f], i) == RemoveAt(v.files, i);
  }

  lemma SoundAgain(v: Vol, w: Vol)
    requires WfDisk(v.disk) && Synced(v.disk) && w.disk == Disk(v.disk.dev[VOL_HDR_SECTOR], v.disk.dev, false)
    requires !w.dirDirty && |w.files| <= MAX_ENTRIES
    requires Allocated(w.disk, w.files) && UniqueInodes(w.files) && Sorted(w.files) && Clean(w.files)
    requires EntriesOk(w.disk, w.files, w.next) && Linked(w.files) == w.files
    requires w.dirHdr == w.disk.dev[DIR_HDR_SECTOR] == DirBytes(Dirs(w.files))
    ensures Inv(w)
  {
    hide AllOwned, Apart, Exact, Sorted, EntriesOk, UniqueInodes, Clean, Linked, DirBytes, Dirs;
  }

  lemma ReadBackSize(gs: seq<File>, fs: seq<File>)
    requires ReadBack(gs, fs)
    ensures |gs| == |fs|
  {
  }

  // ----- which operations leave the bitmap on the device

  /** Operations that end with a flush: every one that succeeds but open and release. */
  ghost predicate Flushes(s: Fs, e: Event)
    requires FsInv(s) && Allowed(s, e)
  {
    match e
    case Create(path, table) => Creates(s, e)
    case Rename(from, to) => Find(s.vol.files, from) != -1
    case Unlink(path) => Find(s.vol.files, path) != -1
    case Write(h, buff, off) => true
    case _ => false
  }

  lemma FlushesBitmap(s: Fs, e: Event)
    requires FsInv(s) && Allowed(s, e) && Flushes(s, e)
    ensures !Step(s, e).vol.disk.changed
  {
    hide Inv, PoolOk, AllRefsOk, HandlesLive, FileCreate, FileRename, FileUnlink, FileWrite, MayWrite, Linked;
    match e
    case Create(path, table) =>
    case Rename(from, to) => LeakKeeps(s.vol, Find(s.vol.files, from));
    case Unlink(path) =>
    case Write(h, buff, off) =>
  }

  /** After an operation that flushes the volume opens as a sound one again if and
      only if no unlinked file is held and no file has more than 23 runs. */
  lemma FlushedReopens(s: Fs, e: Event, table: seq<Chain>)
    requires FsInv(s) && Allowed(s, e) && Flushes(s, e) && |table| == MAX_FILE_CHAINS
    ensures var v := Step(s, e).vol;
            Openable(v.disk.dev) && (Inv(OpenVolume(v.disk.dev, table)) <==> Restorable(v.files))
  {
    StepKeeps(s, e);
    FlushesBitmap(s, e);
    var v := Step(s, e).vol;
    InvIn(Step(s, e));
    hide FsInv, Inv, Step, Allowed, Flushes, Restorable, OpenVolume, Openable;
    ReopenSound(v, table);
    FlushedBitmap(v);
  }

  lemma InvIn(s: Fs)
    requires FsInv(s)
    ensures Inv(s.vol)
  {
  }

  lemma FlushedBitmap(v: Vol)
    requires Inv(v) && !v.disk.changed
    ensures WfDisk(v.disk) && BitmapOnDevice(v.disk)
  {
    hide Allocated, UniqueInodes, Sorted, EntriesOk, Linked, DirBytes, Used;
    Parts(v);
  }
}
