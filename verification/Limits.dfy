/** Runs from a fresh volume that reach the failing side of the disk laws that carry a condition. */
module Limits {
  import opened Bytes
  import opened SectorMap
  import opened Chains
  import opened FileModel
  import opened FileLaws
  import opened Ownership
  import opened Directory
  import opened VolumeModel
  import opened VolumeOps
  import opened FuseModel
  import opened FuseRuns
  import opened FileContents
  import opened FileHistory
  import opened Reopen

  // ----- appending one sector

  /** A write of at most one sector at the end of the allocated ones takes the first free sector. */
  lemma OneMoreSector(d: Disk, f: File, buff: seq<byte>)
    requires Owned(d, f) && f.count < MAX_FILE_CHAINS && 0 < |buff| <= SECTOR && FirstFree(d, FIRST_DATA_SECTOR) != -1
    ensures WfDisk(d) && WfFile(f)
    ensures var off, s := SECTOR * |Sectors(f)|, FirstFree(d, FIRST_DATA_SECTOR);
            && CanWrite(d, f, off, |buff|) && Regular(d, f, off, |buff|)
            && var (d', f', total) := FileModel.Write(d, f, buff, off);
            && total == |buff| && WfFile(f') && Sectors(f') == Sectors(f) + [s] && LastEnd(f', f'.count) == s
            && f'.count == f.count + if LastEnd(f, f.count) + 1 == s then 0 else 1
  {
    var n, s := |Sectors(f)|, FirstFree(d, FIRST_DATA_SECTOR);
    var c := Cursor(f.count, 0, 0, |buff|, 0, 0);
    hide Walk, Used, Mark, FirstFree, FreeCount, Sound, Finish, WriteLoop, WriteTurn, Appended;
    AtOwnEnd(d, f, |buff|);
    AppendTurn(d, f, c, buff);
    LoopTurn(d, f, c, buff);
    var t := WriteTurn(d, f, c, buff);
    LoopDone(t.d, t.f, t.c, buff);
    LoopKeepsShape(d, f, c, buff);
    FinishRuns(t.d, t.f, SECTOR * n + |buff|);
  }

  lemma AtOwnEnd(d: Disk, f: File, len: nat)
    requires Owned(d, f) && f.count < MAX_FILE_CHAINS && 0 < len <= SECTOR
    ensures WfFile(f) && |Sectors(f)| == SecCount(f.hdr)
    ensures var off := SECTOR * |Sectors(f)|;
            var c := Cursor(f.count, 0, 0, len, 0, 0);
            && CanWrite(d, f, off, len) && Regular(d, f, off, len) && Seek(f, off, len) == c && AtEnd(d, f, c)
  {
    hide Walk, Used, FirstFree, NewRuns;
    assert Short(Cursor(f.count, 0, 0, len, 0, 0)) == 1;
  }

  lemma FirstFreeIs(v: Vol, s: nat)
    requires Inv(v) && WfDisk(v.disk) && WfFiles(v.files) && FIRST_DATA_SECTOR <= s < |v.disk.dev| && !Holds(v.files, s)
    requires forall t :: FIRST_DATA_SECTOR <= t < s ==> Holds(v.files, t)
    ensures FirstFree(v.disk, FIRST_DATA_SECTOR) == s
  {
    OwnedIn(v);
    hide Inv, Used, Holds, AllOwned, Apart;
    assert !Used(v.disk.vol, s);
    assert forall t :: FIRST_DATA_SECTOR <= t < s ==> Holds(v.files, t) && Used(v.disk.vol, t);
  }

  /** f after it took sector k. */
  ghost predicate Took(f: File, g: File, k: int) {
    && WfFile(f) && WfFile(g) && SameIdentity(f, g) && Sectors(g) == Sectors(f) + [k] && LastEnd(g, g.count) == k
    && g.count == f.count + if LastEnd(f, f.count) + 1 == k then 0 else 1
  }

  /** The same for a file of a volume. */
  lemma AppendInVolume(v: Vol, r: nat, buff: seq<byte>)
    requires Inv(v) && r < |v.files| && 0 < |buff| <= SECTOR
    requires WfDisk(v.disk) && FirstFree(v.disk, FIRST_DATA_SECTOR) != -1
    requires WfFile(v.files[r]) && v.files[r].count < MAX_FILE_CHAINS
    ensures var f, k := v.files[r], FirstFree(v.disk, FIRST_DATA_SECTOR);
            var off := SECTOR * |Sectors(f)|;
            && MayWrite(v, r, off, |buff|)
            && var (w, total) := FileWrite(v, r, buff, off);
            && |w.files| == |v.files| && total == |buff| && Took(f, w.files[r], k)
  {
    OwnedIn(v);
    hide Inv, Walk, CanWrite, Regular, FileModel.Write, FirstFree, Owned, Allocated, AllOwned, SameIdentity;
    OwnedOne(v, r);
    OneMoreSector(v.disk, v.files[r], buff);
    assert MayWrite(v, r, SECTOR * |Sectors(v.files[r])|, |buff|);
    var (w, _) := FileWrite(v, r, buff, SECTOR * |Sectors(v.files[r])|);
    assert w.files[r] == FileModel.Write(v.disk, v.files[r], buff, SECTOR * |Sectors(v.files[r])|).1;
  }

  /** The same through a handle. */
  lemma AppendThrough(s: Fs, h: nat, buff: seq<byte>)
    requires FsInv(s) && h < HANDLES && s.file[h].Some? && 0 < |buff| <= SECTOR
    requires WfDisk(s.vol.disk) && FirstFree(s.vol.disk, FIRST_DATA_SECTOR) != -1
    requires var f := s.vol.files[Held(s, h)]; WfFile(f) && f.count < MAX_FILE_CHAINS
    ensures var r := Held(s, h);
            var e := Event.Write(h, buff, SECTOR * |Sectors(s.vol.files[r])|);
            && Allowed(s, e) && FsInv(Step(s, e)) && FsWrite(s, h, buff, e.off).1 == |buff|
            && var t := Step(s, e);
            && t.file == s.file && t.free == s.free && |t.vol.disk.dev| == |s.vol.disk.dev|
            && |t.vol.files| == |s.vol.files|
            && (forall i :: 0 <= i < |s.vol.files| && i != r ==> t.vol.files[i] == s.vol.files[i])
            && Took(s.vol.files[r], t.vol.files[r], FirstFree(s.vol.disk, FIRST_DATA_SECTOR))
  {
    hide Inv, PoolOk, AllRefsOk, HandlesLive, Walk, FileWrite, FirstFree, MayWrite, Took, Sectors;
    var r := Held(s, h);
    AppendInVolume(s.vol, r, buff);
    StepKeeps(s, Event.Write(h, buff, SECTOR * |Sectors(s.vol.files[r])|));
  }

  // ----- creating into a volume whose files are empty

  ghost predicate NoData(fs: seq<File>) {
    forall i :: 0 <= i < |fs| ==> Bare(fs[i])
  }

  /** No sectors, a directory sector below the data sectors. */
  ghost predicate Bare(f: File) {
    WfFile(f) && f.count == 0 && f.length == 0 && f.hdr[EOF_AT] == 0 && 2 <= f.dir < FIRST_DATA_SECTOR && !f.unlinked
  }

  lemma BareOwns(f: File)
    requires Bare(f)
    ensures Sectors(f) == [] && Owns(f) == [f.dir]
  {
  }

  lemma LowDirectorySector(v: Vol)
    requires Inv(v) && NoData(v.files) && |v.files| <= 1 && |v.disk.dev| > FIRST_DATA_SECTOR
    ensures WfDisk(v.disk) && 2 <= FirstFree(v.disk, 0) < FIRST_DATA_SECTOR
  {
    OwnedIn(v);
    hide Inv, Used, Owned, Apart, FirstFree, Sectors;
    var s := if |v.files| == 1 && v.files[0].dir == 2 then 3 else 2;
    forall i | 0 <= i < |v.files| ensures s !in Owns(v.files[i]) {
      BareOwns(v.files[i]);
    }
    assert !Holds(v.files, s);
    assert !Used(v.disk.vol, s) && Used(v.disk.vol, 0) && Used(v.disk.vol, 1);
    LowestFree(v.disk, s);
  }

  lemma LowestFree(d: Disk, s: nat)
    requires WfDisk(d) && 2 <= s < |d.dev| && !Used(d.vol, s) && Used(d.vol, 0) && Used(d.vol, 1)
    ensures 2 <= FirstFree(d, 0) <= s
  {
    hide Used;
  }

  lemma FewLinked(fs: seq<File>)
    requires |fs| <= 1
    ensures |Linked(fs)| < MAX_ENTRIES
  {
  }

  lemma NewBare(inode: nat, path: seq<byte>, table: seq<Chain>, dir: int)
    requires |table| == MAX_FILE_CHAINS && |path| <= NAME_LEN && 2 <= dir < FIRST_DATA_SECTOR
    ensures var f := NewFile(inode, path, table).(dir := dir, refs := 1);
            Bare(f) && f.inode == inode && f.osname == path && f.refs == 1
  {
    hide TiName;
  }

  lemma CreateBare(s: Fs, path: seq<byte>, table: seq<Chain>) returns (k: nat, f: File)
    requires FsInv(s) && NoData(s.vol.files) && |s.vol.files| <= 1 && |s.vol.disk.dev| > FIRST_DATA_SECTOR
    requires |path| <= NAME_LEN && |table| == MAX_FILE_CHAINS && s.free != [] && Find(s.vol.files, path) == -1
    ensures var e := Event.Create(path, table);
            && Allowed(s, e) && Creates(s, e) && FsInv(Step(s, e))
            && var t := Step(s, e);
            && k <= |s.vol.files| && t.vol.files == InsertAt(s.vol.files, k, f) && Bare(f) && f.inode == s.vol.next
            && t.free == s.free[1..] && s.free[0] < |s.file| && t.file == s.file[s.free[0] := Some(s.vol.next)]
            && |t.vol.disk.dev| == |s.vol.disk.dev| && f.osname == path && f.refs == 1
  {
    var v := s.vol;
    FewLinked(v.files);
    var e := Event.Create(path, table);
    StepKeeps(s, e);
    TakeHandle(s.free, s.file, s.vol.next);
    LowDirectorySector(v);
    hide Inv, AllRefsOk, HandlesLive, Linked, FirstFree, FileCreate, Position, NewFile, Bare;
    CreatedAs(v, path, table);
    CreateLaw(v, path, table);
    f := NewFile(v.next, path, table).(dir := FirstFree(v.disk, 0), refs := 1);
    NewBare(v.next, path, table, FirstFree(v.disk, 0));
    k := Position(v.files, Name(f));
    AddedIs(v.files, f);
  }

  // ----- two files that take sectors in turn

  /** n sectors, every second one from start on. */
  function Alternate(start: int, n: nat): seq<int> { seq(n, i => start + 2 * i) }

  /** The file's sectors touch nowhere, so each is a run of its own. */
  ghost predicate Spread(f: File, start: int, n: nat) {
    && WfFile(f) && f.count == n && Sectors(f) == Alternate(start, n) && (n > 0 ==> LastEnd(f, n) == start + 2 * (n - 1))
    && 2 <= f.dir < FIRST_DATA_SECTOR && !f.unlinked
  }

  /** Handle 0 is on the file with n sectors, at place i of the list, handle 1 on the one with m. */
  ghost predicate Woven(s: Fs, i: nat, n: nat, m: nat) {
    && FsInv(s) && |s.vol.files| == 2 && i < 2 && (n == m || n == m + 1)
    && s.file[0] == Some(s.vol.files[i].inode) && s.file[1] == Some(s.vol.files[1 - i].inode)
    && Spread(s.vol.files[i], FIRST_DATA_SECTOR, n) && Spread(s.vol.files[1 - i], FIRST_DATA_SECTOR + 1, m)
  }

  lemma SpreadHas(f: File, start: int, n: nat, t: int)
    requires Spread(f, start, n) && t >= FIRST_DATA_SECTOR
    ensures t in Owns(f) <==> start <= t < start + 2 * n && (t - start) % 2 == 0
  {
    hide Sectors;
    if start <= t < start + 2 * n && (t - start) % 2 == 0 {
      assert Alternate(start, n)[(t - start) / 2] == t;
    }
  }

  lemma TwoHold(fs: seq<File>, i: nat, t: int)
    requires WfFiles(fs) && |fs| == 2 && i < 2
    ensures Holds(fs, t) <==> t in Owns(fs[i]) || t in Owns(fs[1 - i])
  {
    hide Owns;
    assert t in Owns(fs[0]) ==> Holds(fs, t);
    assert t in Owns(fs[1]) ==> Holds(fs, t);
  }

  lemma Parity(t: nat, n: nat, m: nat)
    requires n == m || n == m + 1
    ensures t < n + m <==> (t < 2 * n && t % 2 == 0) || (1 <= t < 1 + 2 * m && (t - 1) % 2 == 0)
  {
  }

  lemma WovenHolds(s: Fs, i: nat, n: nat, m: nat, t: int)
    requires Woven(s, i, n, m) && t >= FIRST_DATA_SECTOR
    ensures WfFiles(s.vol.files) && (Holds(s.vol.files, t) <==> t < FIRST_DATA_SECTOR + n + m)
  {
    hide FsInv, Inv, Spread, Owns, Holds, Allocated, AllOwned;
    InvOfStep(s);
    OwnedIn(s.vol);
    TwoHold(s.vol.files, i, t);
    Parity(t - FIRST_DATA_SECTOR, n, m);
    SpreadHas(s.vol.files[i], FIRST_DATA_SECTOR, n, t);
    SpreadHas(s.vol.files[1 - i], FIRST_DATA_SECTOR + 1, m, t);
  }

  lemma WovenInv(s: Fs, i: nat, n: nat, m: nat)
    requires Woven(s, i, n, m)
    ensures Inv(s.vol)
  {
    InvOfStep(s);
  }

  /** The next free sector follows all those taken. */
  lemma WovenFree(s: Fs, i: nat, n: nat, m: nat)
    requires Woven(s, i, n, m) && FIRST_DATA_SECTOR + n + m < |s.vol.disk.dev|
    ensures WfDisk(s.vol.disk) && FirstFree(s.vol.disk, FIRST_DATA_SECTOR) == FIRST_DATA_SECTOR + n + m
  {
    hide FsInv, Inv, Holds, Allocated, AllOwned, FirstFree, Woven;
    WovenInv(s, i, n, m);
    OwnedIn(s.vol);
    forall t | FIRST_DATA_SECTOR <= t <= FIRST_DATA_SECTOR + n + m
      ensures Holds(s.vol.files, t) <==> t < FIRST_DATA_SECTOR + n + m
    {
      WovenHolds(s, i, n, m, t);
    }
    FirstFreeIs(s.vol, FIRST_DATA_SECTOR + n + m);
  }

  lemma TookSpread(f: File, g: File, start: int, n: nat)
    requires Spread(f, start, n) && Took(f, g, start + 2 * n) && start >= 0
    ensures Spread(g, start, n + 1)
  {
    hide Sectors;
    assert Alternate(start, n + 1) == Alternate(start, n) + [start + 2 * n];
  }

  lemma HeldAt(s: Fs, h: nat, i: nat)
    requires FsInv(s) && h < HANDLES && i < |s.vol.files| && s.file[h] == Some(s.vol.files[i].inode)
    ensures Held(s, h) == i
  {
    InvOfStep(s);
    InodeBelow(s, i);
    hide Inv, UniqueInodes;
    SamePlace(s.vol.files, Held(s, h), i);
  }

  function Block(): (b: seq<byte>)
    ensures |b| == SECTOR
  {
    seq(SECTOR, _ => 0)
  }

  /** The handle whose turn it is. */
  function Turn(n: nat, m: nat): nat { if n == m then 0 else 1 }

  function TurnEvent(n: nat, m: nat): Event { Event.Write(Turn(n, m), Block(), SECTOR * m) }

  lemma TurnFile(s: Fs, i: nat, n: nat, m: nat)
    requires Woven(s, i, n, m)
    ensures var h, r := Turn(n, m), if n == m then i else 1 - i;
            && s.file[h].Some? && Held(s, h) == r
            && WfFile(s.vol.files[r]) && Spread(s.vol.files[r], FIRST_DATA_SECTOR + h, m)
            && s.vol.files[r].count == |Sectors(s.vol.files[r])| == m
  {
    hide FsInv, Sectors, Held;
    HeldAt(s, Turn(n, m), if n == m then i else 1 - i);
  }

  lemma TookSame(f: File, g: File, k: int)
    requires Took(f, g, k)
    ensures g.inode == f.inode
  {
  }

  lemma WovenAfter(s: Fs, t: Fs, i: nat, n: nat, m: nat)
    requires Woven(s, i, n, m) && FsInv(t) && t.file == s.file && |t.vol.files| == 2
    requires var r := if n == m then i else 1 - i;
             && t.vol.files[1 - r] == s.vol.files[1 - r]
             && Took(s.vol.files[r], t.vol.files[r], FIRST_DATA_SECTOR + n + m)
    ensures Woven(t, i, m + 1, n)
    ensures t.vol.files[i].inode == s.vol.files[i].inode && t.vol.files[1 - i].inode == s.vol.files[1 - i].inode
  {
    hide FsInv, Sectors, Spread, Held, Took;
    TurnFile(s, i, n, m);
    var r := if n == m then i else 1 - i;
    TookSame(s.vol.files[r], t.vol.files[r], FIRST_DATA_SECTOR + n + m);
    TookSpread(s.vol.files[r], t.vol.files[r], FIRST_DATA_SECTOR + Turn(n, m), m);
  }

  /** The file whose turn it is takes one more sector. */
  lemma WeaveOne(s: Fs, i: nat, n: nat, m: nat)
    requires Woven(s, i, n, m) && n < MAX_FILE_CHAINS && FIRST_DATA_SECTOR + n + m < |s.vol.disk.dev|
    ensures var e := TurnEvent(n, m);
            && Allowed(s, e) && FsWrite(s, e.h, e.buff, e.off).1 == SECTOR
            && var t := Step(s, e);
            && Woven(t, i, m + 1, n) && t.file == s.file && |t.vol.disk.dev| == |s.vol.disk.dev|
            && t.vol.files[i].inode == s.vol.files[i].inode && t.vol.files[1 - i].inode == s.vol.files[1 - i].inode
  {
    hide FirstFree, Step, Allowed, FsWrite, Sectors, Spread, Took, Held, FsInv;
    WovenFree(s, i, n, m);
    TurnFile(s, i, n, m);
    AppendThrough(s, Turn(n, m), Block());
    WovenAfter(s, Step(s, TurnEvent(n, m)), i, n, m);
  }

  // ----- runs

  lemma RunCons(s: Fs, e: Event, es: seq<Event>)
    requires FsInv(s) && Allowed(s, e) && FsInv(Step(s, e)) && Permitted(Step(s, e), es)
    ensures Permitted(s, [e] + es) && RunFs(s, [e] + es) == RunFs(Step(s, e), es)
  {
    hide FsInv, Allowed, Step;
    assert ([e] + es)[1..] == es;
  }

  lemma TakenCons(s: Fs, e: Event, es: seq<Event>, x: nat, b: seq<byte>)
    requires FsInv(s) && Allowed(s, e) && FsInv(Step(s, e)) && Permitted(Step(s, e), es)
    requires Taken(s, e, x, b) && AllTaken(Step(s, e), es, x, Replayed(s, e, x, b))
    ensures Permitted(s, [e] + es) && AllTaken(s, [e] + es, x, b)
  {
    RunCons(s, e, es);
    hide FsInv, Allowed, Step, Taken, Replayed;
    assert ([e] + es)[1..] == es;
  }

  /** k rounds of one sector for each file. */
  function Rounds(n: nat, k: nat): seq<Event>
    decreases k
  {
    if k == 0 then [] else [TurnEvent(n, n)] + ([TurnEvent(n + 1, n)] + Rounds(n + 1, k - 1))
  }

  lemma OwnTurn(s: Fs, i: nat, n: nat, b: seq<byte>)
    requires Woven(s, i, n, n) && n < MAX_FILE_CHAINS && FIRST_DATA_SECTOR + 2 * n < |s.vol.disk.dev| && |b| == SECTOR * n
    ensures var e, x := TurnEvent(n, n), s.vol.files[i].inode;
            Allowed(s, e) && Taken(s, e, x, b) && |Replayed(s, e, x, b)| == SECTOR * (n + 1)
  {
    hide FsInv, Spread, FsWrite, Allowed, Step, Overwrite, Sectors;
    WeaveOne(s, i, n, n);
    OverwriteEnd(b, Block());
    PoolSize(s);
  }

  lemma PoolSize(s: Fs)
    requires FsInv(s)
    ensures |s.file| == HANDLES
  {
    hide Inv, AllRefsOk, HandlesLive;
  }

  lemma OverwriteEnd(b: seq<byte>, x: seq<byte>)
    ensures Overwrite(b, |b|, x) == b + x
  {
  }

  lemma OnlyOne(fs: seq<File>, i: nat)
    requires UniqueInodes(fs) && |fs| == 2 && i < 2
    ensures fs[i].inode != fs[1 - i].inode
  {
  }

  lemma OtherTurn(s: Fs, i: nat, n: nat, b: seq<byte>)
    requires Woven(s, i, n + 1, n) && n + 1 < MAX_FILE_CHAINS && FIRST_DATA_SECTOR + 2 * n + 1 < |s.vol.disk.dev|
    ensures var e, x := TurnEvent(n + 1, n), s.vol.files[i].inode;
            Allowed(s, e) && Taken(s, e, x, b) && Replayed(s, e, x, b) == b
  {
    hide FsInv, Inv, Spread, FsWrite, Allowed, Step, Overwrite, Sectors, UniqueInodes;
    WeaveOne(s, i, n + 1, n);
    InodeBelow(s, i);
    OnlyOne(s.vol.files, i);
  }

  /** Two files that take sectors in turn end up with one run a sector. */
  lemma {:induction false} Weave(s: Fs, i: nat, n: nat, k: nat, b: seq<byte>)
    requires Woven(s, i, n, n) && n + k < MAX_FILE_CHAINS && FIRST_DATA_SECTOR + 2 * (n + k) <= |s.vol.disk.dev|
    requires |b| == SECTOR * n
    ensures FsInv(s) && Permitted(s, Rounds(n, k)) && AllTaken(s, Rounds(n, k), s.vol.files[i].inode, b)
    ensures var t := RunFs(s, Rounds(n, k));
            Woven(t, i, n + k, n + k) && t.vol.files[i].inode == s.vol.files[i].inode
    decreases k
  {
    hide FsInv, Allowed, Step, Woven, Taken, Replayed, TurnEvent;
    WovenParts(s, i, n, n);
    if k > 0 {
      var x, e1, e2, rest := s.vol.files[i].inode, TurnEvent(n, n), TurnEvent(n + 1, n), Rounds(n + 1, k - 1);
      WeaveRound(s, i, n, b);
      var s1, b1 := Step(s, e1), Replayed(s, e1, x, b);
      Weave(Step(s1, e2), i, n + 1, k - 1, b1);
      TakenCons(s1, e2, rest, x, b1);
      RunCons(s1, e2, rest);
      TakenCons(s, e1, [e2] + rest, x, b);
      RunCons(s, e1, [e2] + rest);
    }
  }

  lemma WeaveRound(s: Fs, i: nat, n: nat, b: seq<byte>)
    requires Woven(s, i, n, n) && n + 1 < MAX_FILE_CHAINS && FIRST_DATA_SECTOR + 2 * n + 2 <= |s.vol.disk.dev|
    requires |b| == SECTOR * n
    ensures FsInv(s) && |s.vol.files| == 2 && i < 2
    ensures var x, e1, e2 := s.vol.files[i].inode, TurnEvent(n, n), TurnEvent(n + 1, n);
            && Allowed(s, e1) && FsInv(Step(s, e1)) && Taken(s, e1, x, b)
            && var s1, b1 := Step(s, e1), Replayed(s, e1, x, b);
            && |b1| == SECTOR * (n + 1)
            && Allowed(s1, e2) && FsInv(Step(s1, e2)) && Taken(s1, e2, x, b1) && Replayed(s1, e2, x, b1) == b1
            && var s2 := Step(s1, e2);
            && Woven(s2, i, n + 1, n + 1) && |s2.vol.disk.dev| == |s.vol.disk.dev| && |s2.vol.files| == 2
            && s2.vol.files[i].inode == x
  {
    hide FsInv, Allowed, Step, Woven, Taken, Replayed, TurnEvent, FsWrite;
    WovenParts(s, i, n, n);
    WeaveOne(s, i, n, n);
    OwnTurn(s, i, n, b);
    var s1 := Step(s, TurnEvent(n, n));
    WovenParts(s1, i, n + 1, n);
    WeaveOne(s1, i, n + 1, n);
    OtherTurn(s1, i, n, Replayed(s, TurnEvent(n, n), s.vol.files[i].inode, b));
    WovenParts(Step(s1, TurnEvent(n + 1, n)), i, n + 1, n + 1);
  }

  lemma WovenParts(s: Fs, i: nat, n: nat, m: nat)
    requires Woven(s, i, n, m)
    ensures FsInv(s) && i < |s.vol.files| == 2 && WfFile(s.vol.files[i])
    ensures s.vol.files[i].count == n && !s.vol.files[i].unlinked
  {
    hide FsInv, Sectors;
  }

  // ----- a fresh volume, mounted

  ghost predicate FreshVolume(vol: seq<byte>, sectors: nat, table: seq<Chain>) {
    IsNew(vol, sectors) && FIRST_DATA_SECTOR < sectors <= MAX_SECTORS && sectors % 8 == 0 && |table| == MAX_FILE_CHAINS
  }

  lemma FreshMount(vol: seq<byte>, sectors: nat, table: seq<Chain>) returns (s: Fs)
    requires FreshVolume(vol, sectors, table)
    ensures Openable(NewImage(vol, sectors)) && s == Mounted(OpenVolume(NewImage(vol, sectors), table)) && FsInv(s)
    ensures s.vol.files == [] && |s.vol.disk.dev| == sectors && s.free == seq(HANDLES, i => i)
  {
    assert |vol| == SECTOR;
    hide Inv, FsInv, IsNew, Openable, OpenVolume, NewImage;
    FormatLaw(vol, sectors, table);
    var v := OpenVolume(NewImage(vol, sectors), table);
    MountKeeps(v);
    s := Mounted(v);
    OpenedSize(NewImage(vol, sectors), table);
  }

  lemma OpenedSize(dev: seq<seq<byte>>, table: seq<Chain>)
    requires Openable(dev) && |table| == MAX_FILE_CHAINS
    ensures OpenVolume(dev, table).disk.dev == dev
  {
    hide ReadAll, ListedFrom;
  }

  // ----- a write that runs past the allocated sectors, and a read past the length

  /** Mounting a fresh volume and creating a file. */
  lemma CreateFirst(vol: seq<byte>, sectors: nat, table: seq<Chain>, path: seq<byte>) returns (s: Fs, t: Fs)
    requires FreshVolume(vol, sectors, table) && |path| <= NAME_LEN
    ensures Openable(NewImage(vol, sectors)) && s == Mounted(OpenVolume(NewImage(vol, sectors), table)) && FsInv(s)
    ensures var e := Event.Create(path, table);
            && Allowed(s, e) && Creates(s, e) && FsInv(Step(s, e)) && t == Step(s, e)
            && |t.vol.files| == 1 && Bare(t.vol.files[0]) && t.vol.files[0].inode == s.vol.next
            && t.vol.files[0].osname == path && t.vol.files[0].refs == 1 && |t.vol.disk.dev| == sectors
            && |t.file| == HANDLES && t.file[0] == Some(s.vol.next) && t.free == seq(HANDLES, i => i)[1..]
  {
    hide FsInv, FreshVolume, Openable, OpenVolume, NewImage, Allowed, Creates, Step, Mounted, Bare;
    s := FreshMount(vol, sectors, table);
    FreshSize(vol, sectors, table);
    PoolSize(s);
    var k, f := CreateBare(s, path, table);
    t := Step(s, Event.Create(path, table));
  }

  lemma FreshSize(vol: seq<byte>, sectors: nat, table: seq<Chain>)
    requires FreshVolume(vol, sectors, table)
    ensures FIRST_DATA_SECTOR < sectors && sectors % 8 == 0 && |table| == MAX_FILE_CHAINS
  {
    hide IsNew;
  }

  /** With no data on the volume the first data sector is free, and so are the others. */
  lemma DataFree(v: Vol, t: nat)
    requires Inv(v) && NoData(v.files) && FIRST_DATA_SECTOR <= t < |v.disk.dev|
    ensures WfDisk(v.disk) && !Used(v.disk.vol, t)
  {
    hide Inv, Used, AllOwned, Apart, Bare;
    OwnedIn(v);
    forall i | 0 <= i < |v.files| ensures t !in Owns(v.files[i]) {
      BareOwns(v.files[i]);
      BareLow(v.files[i]);
    }
  }

  lemma BareLow(f: File)
    requires Bare(f)
    ensures f.dir < FIRST_DATA_SECTOR
  {
  }

  /** A file of one sector that holds one byte, and free sectors after it. */
  ghost predicate OneByte(v: Vol) {
    && Inv(v) && |v.files| == 1 && WfDisk(v.disk) && WfFile(v.files[0])
    && Owned(v.disk, v.files[0]) && v.files[0].count == 1 && |Sectors(v.files[0])| == 1 && v.files[0].length == 1
    && FirstFree(v.disk, FIRST_DATA_SECTOR) != -1
  }

  lemma WrittenLength(v: Vol, i: nat, buff: seq<byte>, off: nat)
    requires Inv(v) && i < |v.files| && MayWrite(v, i, off, |buff|)
    ensures FileWrite(v, i, buff, off).0.files[i].length == Max(v.files[i].length, off + |buff|)
  {
    hide Inv, FileModel.Write, CanWrite, Regular, Owned;
    var news := WriteLaw(v.disk, v.files[i], buff, off);
  }

  lemma OneByteReached(s: Fs, x: byte)
    requires FsInv(s) && |s.vol.files| == 1 && Bare(s.vol.files[0]) && |s.vol.disk.dev| > FIRST_DATA_SECTOR + 1
    requires |s.file| == HANDLES && s.file[0] == Some(s.vol.files[0].inode)
    ensures var e := Event.Write(0, [x], 0); Allowed(s, e) && FsInv(Step(s, e)) && OneByte(Step(s, e).vol)
  {
    hide FsInv, Inv, Used, Sectors, FirstFree, Held, MayWrite, Allowed, FsWrite, Owned;
    var v := s.vol;
    InvOfStep(s);
    OwnedIn(v);
    BareOwns(v.files[0]);
    DataFree(v, FIRST_DATA_SECTOR);
    FirstFreeLow(v, FIRST_DATA_SECTOR);
    HeldAt(s, 0, 0);
    AppendThrough(s, 0, [x]);
    var e := Event.Write(0, [x], 0);
    var t := Step(s, e);
    StepKeeps(s, e);
    InvOfStep(t);
    StepLength(s, e, 0);
    OwnedIn(t.vol);
    OwnedOne(t.vol, 0);
    SecondFree(t.vol);
  }

  lemma StepLength(s: Fs, e: Event, i: nat)
    requires FsInv(s) && Allowed(s, e) && e.Write? && Held(s, e.h) == i
    ensures Step(s, e).vol.files[i].length == Max(s.vol.files[i].length, e.off + |e.buff|)
  {
    hide Inv, PoolOk, AllRefsOk, HandlesLive, Held, MayWrite, FileWrite;
    WrittenLength(s.vol, i, e.buff, e.off);
  }

  lemma FirstFreeLow(v: Vol, s: nat)
    requires Inv(v) && WfDisk(v.disk) && s == FIRST_DATA_SECTOR < |v.disk.dev| && !Used(v.disk.vol, s)
    ensures FirstFree(v.disk, FIRST_DATA_SECTOR) == s
  {
    hide Inv, Used;
  }

  lemma SecondFree(v: Vol)
    requires Inv(v) && |v.files| == 1 && WfFile(v.files[0]) && Sectors(v.files[0]) == [FIRST_DATA_SECTOR]
    requires v.files[0].dir < FIRST_DATA_SECTOR && |v.disk.dev| > FIRST_DATA_SECTOR + 1
    ensures WfDisk(v.disk) && FirstFree(v.disk, FIRST_DATA_SECTOR) != -1
  {
    hide Inv, Used, AllOwned, Apart, Sectors, FirstFree;
    OwnedIn(v);
    assert !Holds(v.files, FIRST_DATA_SECTOR + 1);
    assert !Used(v.disk.vol, FIRST_DATA_SECTOR + 1);
  }

  lemma OneByteRun(vol: seq<byte>, sectors: nat, table: seq<Chain>, path: seq<byte>, x: byte) returns (s: Fs, v: Vol)
    requires FreshVolume(vol, sectors, table) && |path| <= NAME_LEN
    ensures Openable(NewImage(vol, sectors)) && s == Mounted(OpenVolume(NewImage(vol, sectors), table)) && FsInv(s)
    ensures Permitted(s, [Event.Create(path, table), Event.Write(0, [x], 0)])
    ensures v == RunFs(s, [Event.Create(path, table), Event.Write(0, [x], 0)]).vol && OneByte(v)
  {
    hide FsInv, Allowed, Step, Permitted, RunFs, Openable, OpenVolume, NewImage, Mounted, FreshVolume, OneByte, Bare, Creates;
    FreshSize(vol, sectors, table);
    var t;
    s, t := CreateFirst(vol, sectors, table, path);
    var e := Event.Write(0, [x], 0);
    assert Allowed(t, e) && FsInv(Step(t, e)) && OneByte(Step(t, e).vol) by {
      OneByteReached(t, x);
    }
    RunTwo(s, Event.Create(path, table), e);
    v := Step(t, e).vol;
  }

  /** From a fresh volume: create a file, write one byte. A write of more than a sector over it is
      one the program attempts, starts inside and runs past the end, and loses a sector; and a
      read of two bytes returns two though the file has one. */
  lemma StraddleAndStaleRead(vol: seq<byte>, sectors: nat, table: seq<Chain>, path: seq<byte>, x: byte, buff: seq<byte>)
      returns (s: Fs, v: Vol)
    requires FreshVolume(vol, sectors, table) && |path| <= NAME_LEN && SECTOR < |buff| <= 2 * SECTOR
    ensures Openable(NewImage(vol, sectors)) && s == Mounted(OpenVolume(NewImage(vol, sectors), table)) && FsInv(s)
    ensures Permitted(s, [Event.Create(path, table), Event.Write(0, [x], 0)])
    ensures v == RunFs(s, [Event.Create(path, table), Event.Write(0, [x], 0)]).vol && |v.files| == 1
    ensures Owned(v.disk, v.files[0]) && CanWrite(v.disk, v.files[0], 0, |buff|)
    ensures !Regular(v.disk, v.files[0], 0, |buff|)
    ensures !(Sectors(v.files[0]) <= Sectors(FileModel.Write(v.disk, v.files[0], buff, 0).1))
    ensures v.files[0].length == 1 && |ReadSlice(v.disk, v.files[0], 0, 2)| == 2
  {
    hide FsInv, Allowed, Step, Permitted, RunFs, Openable, OpenVolume, NewImage, Mounted, FreshVolume, OneByte, Bare,
      Owned, CanWrite, Regular, Sectors, FileModel.Write, ReadSlice;
    s, v := OneByteRun(vol, sectors, table, path, x);
    AtOneByte(v, buff);
  }

  lemma RunTwo(s: Fs, e1: Event, e2: Event)
    requires FsInv(s) && Allowed(s, e1) && FsInv(Step(s, e1)) && Allowed(Step(s, e1), e2)
    requires FsInv(Step(Step(s, e1), e2))
    ensures Permitted(s, [e1, e2]) && RunFs(s, [e1, e2]) == Step(Step(s, e1), e2)
  {
    hide FsInv, Allowed, Step, Permitted, RunFs;
    var t := Step(s, e1);
    RunNone(Step(t, e2));
    RunCons(t, e2, []);
    assert [e2] + [] == [e2];
    RunCons(s, e1, [e2]);
    assert [e1] + [e2] == [e1, e2];
  }

  lemma RunNone(s: Fs)
    requires FsInv(s)
    ensures Permitted(s, []) && RunFs(s, []) == s
  {
  }

  lemma AtOneByte(v: Vol, buff: seq<byte>)
    requires OneByte(v) && SECTOR < |buff| <= 2 * SECTOR
    ensures |v.files| == 1
    ensures var d, f := v.disk, v.files[0];
            && Owned(d, f) && CanWrite(d, f, 0, |buff|) && !Regular(d, f, 0, |buff|) && InRange(d, Sectors(f))
            && !(Sectors(f) <= Sectors(FileModel.Write(d, f, buff, 0).1))
            && f.length == 1 && |ReadSlice(d, f, 0, 2)| == 2
  {
    hide Inv, Walk, Used, FirstFree, NewRuns, FileModel.Write, Content;
    SoundBasics(v.disk, v.files[0]);
    assert Short(Seek(v.files[0], 0, |buff|)) == 1;
    WriteKeepsSectors(v.disk, v.files[0], buff, 0);
  }

  // ----- a full disk

  /** From a fresh volume: create a file and write one byte more than the disk can hold. The write
      is one the program accepts, it comes back short, and the length it leaves is not covered by
      the sectors. */
  lemma FullDisk(vol: seq<byte>, sectors: nat, table: seq<Chain>, path: seq<byte>, buff: seq<byte>)
      returns (s: Fs, t: Fs, u: Fs)
    requires FreshVolume(vol, sectors, table) && |path| <= NAME_LEN
    requires |buff| == SECTOR * (sectors - FIRST_DATA_SECTOR) + 1
    ensures Openable(NewImage(vol, sectors)) && s == Mounted(OpenVolume(NewImage(vol, sectors), table)) && FsInv(s)
    ensures Allowed(s, Event.Create(path, table)) && t == Step(s, Event.Create(path, table)) && FsInv(t)
    ensures Allowed(t, Event.Write(0, buff, 0)) && u == Step(t, Event.Write(0, buff, 0))
    ensures Permitted(s, [Event.Create(path, table), Event.Write(0, buff, 0)])
    ensures |t.vol.files| == 1 && WfFile(t.vol.files[0]) && Sized(t.vol.files[0])
    ensures FsWrite(t, 0, buff, 0).1 == |buff| - 1
    ensures |u.vol.files| == 1 && WfFile(u.vol.files[0]) && !Sized(u.vol.files[0])
  {
    hide FsInv, Allowed, Step, Permitted, RunFs, Openable, OpenVolume, NewImage, Mounted, FreshVolume, Bare, FsWrite, Sized;
    FreshSize(vol, sectors, table);
    s, t := CreateFirst(vol, sectors, table, path);
    TooMuch(t, buff);
    u := Step(t, Event.Write(0, buff, 0));
    RunTwo(s, Event.Create(path, table), Event.Write(0, buff, 0));
  }

  lemma TooMuch(t: Fs, buff: seq<byte>)
    requires FsInv(t) && |t.vol.files| == 1 && Bare(t.vol.files[0]) && |t.vol.disk.dev| > FIRST_DATA_SECTOR
    requires |t.file| == HANDLES && t.file[0] == Some(t.vol.files[0].inode)
    requires |buff| == SECTOR * (|t.vol.disk.dev| - FIRST_DATA_SECTOR) + 1
    ensures WfFile(t.vol.files[0]) && Sized(t.vol.files[0])
    ensures var e := Event.Write(0, buff, 0);
            && Allowed(t, e) && FsInv(Step(t, e)) && FsWrite(t, 0, buff, 0).1 == |buff| - 1
            && |Step(t, e).vol.files| == 1 && WfFile(Step(t, e).vol.files[0]) && !Sized(Step(t, e).vol.files[0])
  {
    var v, f := t.vol, t.vol.files[0];
    hide Inv, PoolOk, AllRefsOk, HandlesLive, Used, Sectors, Held, CanWrite, Regular, FileModel.Write, Sized, Owned;
    BareOwns(f);
    OwnedIn(v);
    OwnedOne(v, 0);
    AllData(v, |buff|);
    HeldAt(t, 0, 0);
    BareSized(f);
    OverFull(v.disk, f, buff);
    var e := Event.Write(0, buff, 0);
    StepKeeps(t, e);
    assert Step(t, e).vol.files[0] == FileModel.Write(v.disk, f, buff, 0).1;
  }

  lemma BareSized(f: File)
    requires Bare(f)
    ensures Sized(f)
  {
  }

  lemma OverFull(d: Disk, f: File, buff: seq<byte>)
    requires Owned(d, f) && CanWrite(d, f, 0, |buff|) && Regular(d, f, 0, |buff|) && Sized(f) && f.length == 0
    requires WfDisk(d) && WfFile(f) && Sectors(f) == [] && |buff| == SECTOR * FreeCount(d, FIRST_DATA_SECTOR) + 1
    ensures FileModel.Write(d, f, buff, 0).2 == |buff| - 1
    ensures WfFile(FileModel.Write(d, f, buff, 0).1) && !Sized(FileModel.Write(d, f, buff, 0).1)
  {
    hide CanWrite, Regular, FileModel.Write, Walk, FreeCount, Sound, Gained, SameIdentity, LoopBytes, Sized, Sectors;
    WriteKeepsSize(d, f, buff, 0);
    var news := WriteLaw(d, f, buff, 0);
  }

  /** The whole data area is free: it is all one run. */
  lemma AllData(v: Vol, len: nat)
    requires Inv(v) && NoData(v.files) && |v.files| == 1 && |v.disk.dev| > FIRST_DATA_SECTOR && len > 0
    ensures WfDisk(v.disk) && Owned(v.disk, v.files[0])
    ensures FreeCount(v.disk, FIRST_DATA_SECTOR) == |v.disk.dev| - FIRST_DATA_SECTOR
    ensures CanWrite(v.disk, v.files[0], 0, len) && Regular(v.disk, v.files[0], 0, len)
  {
    hide Inv, Used, FirstFree, NewRuns;
    OwnedIn(v);
    OwnedOne(v, 0);
    forall t | FIRST_DATA_SECTOR <= t < |v.disk.dev| ensures !Used(v.disk.vol, t) {
      DataFree(v, t);
    }
    FirstFreeLow(v, FIRST_DATA_SECTOR);
    CountAll(v.disk, FIRST_DATA_SECTOR);
    BareOwns(v.files[0]);
    var c := Seek(v.files[0], 0, len);
    assert Short(c) > 0;
    StretchIsOneRun(v.disk, -2, Short(c));
  }

  lemma {:induction false} CountAll(d: Disk, start: nat)
    requires WfDisk(d) && start <= |d.dev| && forall t :: start <= t < |d.dev| ==> !Used(d.vol, t)
    ensures FreeCount(d, start) == |d.dev| - start
    decreases |d.dev| - start
  {
    hide Used;
    if start < |d.dev| {
      CountAll(d, start + 1);
    }
  }

  // ----- more runs than an entry holds

  lemma BareSpread(f: File, start: int)
    requires Bare(f)
    ensures Spread(f, start, 0)
  {
    assert Alternate(start, 0) == [];
  }

  lemma SecondCreate(t: Fs, path: seq<byte>, table: seq<Chain>) returns (u: Fs, i: nat)
    requires FsInv(t) && |t.vol.files| == 1 && Bare(t.vol.files[0]) && |t.vol.disk.dev| > FIRST_DATA_SECTOR
    requires t.file[0] == Some(t.vol.files[0].inode) && t.free == seq(HANDLES, i => i)[1..]
    requires |path| <= NAME_LEN && |table| == MAX_FILE_CHAINS && t.vol.files[0].osname != path
    ensures var e := Event.Create(path, table);
            && Allowed(t, e) && FsInv(Step(t, e)) && u == Step(t, e) && Woven(u, i, 0, 0)
            && u.vol.files[i].inode == t.vol.files[0].inode && |u.vol.disk.dev| == |t.vol.disk.dev|
  {
    hide FsInv, Bare, Step, Allowed, Creates, Spread;
    PoolSize(t);
    var k, f := CreateBare(t, path, table);
    u := Step(t, Event.Create(path, table));
    PoolSize(u);
    i := 1 - k;
    BareSpread(t.vol.files[0], FIRST_DATA_SECTOR);
    BareSpread(f, FIRST_DATA_SECTOR + 1);
  }

  /** From a fresh volume: create two files and write sectors to them in turn, 24 each. Every write
      comes back complete, yet at the next mount the file does not read as it was written. */
  lemma ManyRuns(vol: seq<byte>, sectors: nat, table: seq<Chain>, path: seq<byte>, other: seq<byte>)
      returns (s: Fs, t: Fs, es: seq<Event>, v: Vol, k: nat)
    requires FreshVolume(vol, sectors, table) && sectors >= FIRST_DATA_SECTOR + 2 * (SAVED_CHAINS + 1)
    requires |path| <= NAME_LEN && |other| <= NAME_LEN && path != other
    ensures Openable(NewImage(vol, sectors)) && s == Mounted(OpenVolume(NewImage(vol, sectors), table)) && FsInv(s)
    ensures Allowed(s, Event.Create(path, table)) && Creates(s, Event.Create(path, table))
    ensures t == Step(s, Event.Create(path, table)) && FsInv(t)
    ensures es == [Event.Create(other, table)] + Rounds(0, SAVED_CHAINS + 1)
    ensures Permitted(t, es) && AllTaken(t, es, s.vol.next, []) && v == RunFs(t, es).vol
    ensures k < |Linked(v.files)| && Linked(v.files)[k].inode == s.vol.next && Linked(v.files)[k].count == SAVED_CHAINS + 1
    ensures Openable(v.disk.dev) && k < |OpenVolume(v.disk.dev, table).files|
    ensures var w := OpenVolume(v.disk.dev, table);
            var b := Replay(t, es, s.vol.next, []);
            && WfDisk(w.disk) && WfFile(w.files[k]) && InRange(w.disk, Sectors(w.files[k]))
            && ReadSlice(w.disk, w.files[k], 0, |b|) != b
  {
    hide FsInv, Allowed, Step, Permitted, RunFs, Openable, OpenVolume, NewImage, Mounted, FreshVolume, Bare, Creates, Woven,
      AllTaken, Replay, ReadSlice, Sectors, Linked, Rounds;
    FreshSize(vol, sectors, table);
    s, t := CreateFirst(vol, sectors, table, path);
    var e, rounds := Event.Create(other, table), Rounds(0, SAVED_CHAINS + 1);
    var u, i := SecondCreate(t, other, table);
    WovenParts(u, i, 0, 0);
    Weave(u, i, 0, SAVED_CHAINS + 1, []);
    TakenCons(t, e, rounds, s.vol.next, []);
    RunCons(t, e, rounds);
    es := [e] + rounds;
    v := RunFs(t, es).vol;
    WovenParts(RunFs(u, rounds), i, SAVED_CHAINS + 1, SAVED_CHAINS + 1);
    LinkedHas(v.files, i);
    k :| k < |Linked(v.files)| && Linked(v.files)[k] == v.files[i];
    WrittenComesBack(s, Event.Create(path, table), es, table, k);
  }

  // ----- an unflushed last close

  /** From a fresh volume: create, unlink, release. Nothing is left of the file in memory, but the
      device still marks its directory sector and does not open as a sound volume. */
  lemma LastClose(vol: seq<byte>, sectors: nat, table: seq<Chain>, path: seq<byte>) returns (s: Fs, v: Vol)
    requires FreshVolume(vol, sectors, table) && |path| <= NAME_LEN
    ensures Openable(NewImage(vol, sectors)) && s == Mounted(OpenVolume(NewImage(vol, sectors), table)) && FsInv(s)
    ensures Permitted(s, [Event.Create(path, table), Event.Unlink(path), Event.Release(0)])
    ensures v == RunFs(s, [Event.Create(path, table), Event.Unlink(path), Event.Release(0)]).vol
    ensures v.files == [] && Restorable(v.files) && Openable(v.disk.dev) && !Inv(OpenVolume(v.disk.dev, table))
  {
    hide FsInv, Allowed, Step, Permitted, RunFs, Openable, OpenVolume, NewImage, Mounted, FreshVolume, Bare, Inv;
    FreshSize(vol, sectors, table);
    var t;
    s, t := CreateFirst(vol, sectors, table, path);
    var e1, e2, e3 := Event.Create(path, table), Event.Unlink(path), Event.Release(0);
    UnlinkThenRelease(t, path, table);
    var u := Step(t, e2);
    RunTwo(t, e2, e3);
    RunCons(s, e1, [e2, e3]);
    assert [e1] + [e2, e3] == [e1, e2, e3];
    v := Step(u, e3).vol;
  }

  lemma UnlinkThenRelease(t: Fs, path: seq<byte>, table: seq<Chain>)
    requires FsInv(t) && |t.vol.files| == 1 && t.vol.files[0].osname == path && t.vol.files[0].refs == 1
    requires |t.file| == HANDLES && t.file[0] == Some(t.vol.files[0].inode) && |table| == MAX_FILE_CHAINS
    ensures Allowed(t, Event.Unlink(path)) && FsInv(Step(t, Event.Unlink(path)))
    ensures var u := Step(t, Event.Unlink(path));
            && Allowed(u, Event.Release(0)) && FsInv(Step(u, Event.Release(0)))
            && var v := Step(u, Event.Release(0)).vol;
               v.files == [] && Openable(v.disk.dev) && !Inv(OpenVolume(v.disk.dev, table))
  {
    hide Inv, PoolOk, AllRefsOk, HandlesLive, FileUnlink, FileClose, Held, OpenVolume, Openable;
    StepKeeps(t, Event.Unlink(path));
    UnlinkFiles(t, path);
    var u := Step(t, Event.Unlink(path));
    HeldAt(u, 0, 0);
    StepKeeps(u, Event.Release(0));
    LastCloseUnflushed(u.vol, 0, table);
  }

  // ----- a renamed file

  /** From a fresh volume: create, rename, unlink, release. No handle is left open and the name is
      gone, yet the file stays in the list and its directory sector in use. */
  lemma RenamedStays(vol: seq<byte>, sectors: nat, table: seq<Chain>, path: seq<byte>, to: seq<byte>)
      returns (s: Fs, r: Fs)
    requires FreshVolume(vol, sectors, table) && |path| <= NAME_LEN && |to| <= NAME_LEN
    ensures Openable(NewImage(vol, sectors)) && s == Mounted(OpenVolume(NewImage(vol, sectors), table)) && FsInv(s)
    ensures Permitted(s, [Event.Create(path, table), Event.Rename(path, to), Event.Unlink(to), Event.Release(0)])
    ensures r == RunFs(s, [Event.Create(path, table), Event.Rename(path, to), Event.Unlink(to), Event.Release(0)])
    ensures |r.vol.files| == 1 && r.vol.files[0].unlinked && Holders(r.file, r.vol.files[0].inode) == 0
    ensures WfDisk(r.vol.disk) && 2 <= r.vol.files[0].dir < |r.vol.disk.dev| && Used(r.vol.disk.vol, r.vol.files[0].dir)
  {
    hide FsInv, Allowed, Step, Permitted, RunFs, Openable, OpenVolume, NewImage, Mounted, FreshVolume, Bare, Inv, Holders, Used;
    FreshSize(vol, sectors, table);
    var t;
    s, t := CreateFirst(vol, sectors, table, path);
    var e1, e2, e3, e4 := Event.Create(path, table), Event.Rename(path, to), Event.Unlink(to), Event.Release(0);
    OthersFree(t);
    var u := RenameOnly(t, path, to);
    var w := UnlinkRenamed(u, to);
    r := ReleaseRenamed(w);
    RunTwo(u, e3, e4);
    RunCons(t, e2, [e3, e4]);
    assert [e2] + [e3, e4] == [e2, e3, e4];
    RunCons(s, e1, [e2, e3, e4]);
    assert [e1] + [e2, e3, e4] == [e1, e2, e3, e4];
  }

  /** One file, open on the first handle alone. */
  ghost predicate OneOpen(s: Fs) {
    && FsInv(s) && |s.vol.files| == 1 && |s.file| == HANDLES && s.file[0] == Some(s.vol.files[0].inode)
    && forall h :: 0 < h < HANDLES ==> s.file[h] == None
  }

  lemma OthersFree(s: Fs)
    requires FsInv(s) && s.free == seq(HANDLES, i => i)[1..]
    ensures |s.file| == HANDLES && forall h :: 0 < h < HANDLES ==> s.file[h] == None
  {
    hide Inv, AllRefsOk, HandlesLive;
    forall h | 0 < h < HANDLES ensures s.file[h] == None {
      assert s.free[h - 1] == h;
    }
  }

  lemma RenameOnly(t: Fs, path: seq<byte>, to: seq<byte>) returns (u: Fs)
    requires OneOpen(t) && t.vol.files[0].osname == path && |to| <= NAME_LEN
    ensures var e := Event.Rename(path, to);
            && Allowed(t, e) && u == Step(t, e) && OneOpen(u)
            && u.vol.files[0].osname == to && u.vol.files[0].leaked > 0
  {
    hide Inv, PoolOk, AllRefsOk, HandlesLive, FileRename, RemoveAt, InsertAt;
    StepKeeps(t, Event.Rename(path, to));
    u := Step(t, Event.Rename(path, to));
    var k, g := RenameFiles(t, path, to);
    assert u.vol.files[0] == g;
  }

  lemma UnlinkRenamed(u: Fs, to: seq<byte>) returns (w: Fs)
    requires OneOpen(u) && u.vol.files[0].osname == to && u.vol.files[0].leaked > 0
    ensures var e := Event.Unlink(to);
            && Allowed(u, e) && w == Step(u, e) && OneOpen(w)
            && w.vol.files[0].leaked > 0 && w.vol.files[0].unlinked
  {
    hide Inv, PoolOk, HandlesLive, FileUnlink, Holders;
    StepKeeps(u, Event.Unlink(to));
    w := Step(u, Event.Unlink(to));
    UnlinkFiles(u, to);
    assert RefsOk(u.vol.files[0], u.file);
  }

  lemma LeakedRefs(w: Fs)
    requires OneOpen(w) && w.vol.files[0].leaked > 0
    ensures w.vol.files[0].refs > 1
  {
    hide Inv, PoolOk, HandlesLive, Holders;
    assert RefsOk(w.vol.files[0], w.file);
    SomeHolder(w.file, 0, w.vol.files[0].inode);
  }

  lemma ReleaseRenamed(w: Fs) returns (r: Fs)
    requires OneOpen(w) && w.vol.files[0].leaked > 0 && w.vol.files[0].unlinked
    ensures var e := Event.Release(0);
            && Allowed(w, e) && FsInv(Step(w, e)) && r == Step(w, e)
            && |r.vol.files| == 1 && r.vol.files[0].unlinked && Holders(r.file, r.vol.files[0].inode) == 0
            && WfDisk(r.vol.disk) && 2 <= r.vol.files[0].dir < |r.vol.disk.dev| && Used(r.vol.disk.vol, r.vol.files[0].dir)
  {
    hide Inv, PoolOk, HandlesLive, FileClose, Holders, Held, Used, Sound;
    var e := Event.Release(0);
    StepKeeps(w, e);
    HeldAt(w, 0, 0);
    ReleaseFiles(w, 0);
    r := Step(w, e);
    LeakedRefs(w);
    NoHolders(r.file, r.vol.files[0].inode);
    OwnedIn(r.vol);
    OwnedOne(r.vol, 0);
  }
}
