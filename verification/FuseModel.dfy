/** The mounted volume: the pool of file handles over the file list, and what every run of the
    mount's operations keeps. */
module FuseModel {
  import opened Bytes
  import opened SectorMap
  import opened Chains
  import opened FileModel
  import opened FileLaws
  import opened Ownership
  import opened Directory
  import opened VolumeModel
  import opened VolumeOps

  const HANDLES: nat := 128            // DISK_MAX_FILE_COUNT

  /** free: the list of free handles, its head first. file: the file each handle is open on. */
  datatype Fs = Fs(vol: Vol, free: seq<nat>, file: seq<Option<nat>>)

  // ----- handles

  /** How many handles are open on a file. */
  function Holders(file: seq<Option<nat>>, inode: nat): nat {
    if file == [] then 0
    else Holders(file[..|file| - 1], inode) + if file[|file| - 1] == Some(inode) then 1 else 0
  }

  lemma {:induction false} HoldersUpdate(file: seq<Option<nat>>, h: nat, x: Option<nat>, inode: nat)
    requires h < |file|
    ensures Holders(file[h := x], inode)
            == Holders(file, inode) - (if file[h] == Some(inode) then 1 else 0) + (if x == Some(inode) then 1 else 0)
  {
    var n := |file| - 1;
    if h == n {
      assert file[h := x][..n] == file[..n];
    } else {
      HoldersUpdate(file[..n], h, x, inode);
      assert file[h := x][..n] == file[..n][h := x];
    }
  }

  lemma {:induction false} NoHolders(file: seq<Option<nat>>, inode: nat)
    requires forall h :: 0 <= h < |file| ==> file[h] != Some(inode)
    ensures Holders(file, inode) == 0
  {
    if file != [] {
      NoHolders(file[..|file| - 1], inode);
    }
  }

  lemma {:induction false} SomeHolder(file: seq<Option<nat>>, h: nat, inode: nat)
    requires h < |file| && file[h] == Some(inode)
    ensures Holders(file, inode) > 0
  {
    if h < |file| - 1 {
      SomeHolder(file[..|file| - 1], h, inode);
    }
  }

  /** Each handle is on the free list once, or in use and not on it. */
  ghost predicate PoolOk(free: seq<nat>, file: seq<Option<nat>>) {
    && |file| == HANDLES && Distinct(free)
    && (forall i :: 0 <= i < |free| ==> free[i] < HANDLES)
    && (forall h :: 0 <= h < HANDLES ==> (h in free <==> file[h] == None))
  }

  lemma TakeHandle(free: seq<nat>, file: seq<Option<nat>>, inode: nat)
    requires PoolOk(free, file) && free != []
    ensures |file| == HANDLES && free[0] < HANDLES && file[free[0]] == None
    ensures PoolOk(free[1..], file[free[0] := Some(inode)])
  {
    assert free == [free[0]] + free[1..];
  }

  lemma GiveHandle(free: seq<nat>, file: seq<Option<nat>>, h: nat)
    requires PoolOk(free, file) && h < HANDLES && file[h].Some?
    ensures |file| == HANDLES && PoolOk([h] + free, file[h := None])
  {
  }

  function InUse(file: seq<Option<nat>>): nat {
    if file == [] then 0 else InUse(file[..|file| - 1]) + if file[|file| - 1].Some? then 1 else 0
  }

  lemma {:induction false} InUseUpdate(file: seq<Option<nat>>, h: nat, x: Option<nat>)
    requires h < |file|
    ensures InUse(file[h := x]) == InUse(file) - (if file[h].Some? then 1 else 0) + (if x.Some? then 1 else 0)
  {
    var n := |file| - 1;
    if h == n {
      assert file[h := x][..n] == file[..n];
    } else {
      InUseUpdate(file[..n], h, x);
      assert file[h := x][..n] == file[..n][h := x];
    }
  }

  lemma {:induction false} AllInUse(file: seq<Option<nat>>)
    requires forall h :: 0 <= h < |file| ==> file[h].Some?
    ensures InUse(file) == |file|
  {
    if file != [] {
      AllInUse(file[..|file| - 1]);
    }
  }

  /** Free and used handles always add up to the whole pool. */
  lemma {:induction false} PoolCount(free: seq<nat>, file: seq<Option<nat>>)
    requires PoolOk(free, file)
    ensures |free| + InUse(file) == HANDLES
    decreases |free|
  {
    if free == [] {
      AllInUse(file);
    } else {
      TakeHandle(free, file, 0);
      InUseUpdate(file, free[0], Some(0));
      PoolCount(free[1..], file[free[0] := Some(0)]);
    }
  }

  // ----- the invariant of the mount

  /** Every reference to a file is a handle open on it or was leaked by a rename; an unlinked
      file is still in the list only because of them. */
  ghost predicate RefsOk(f: File, file: seq<Option<nat>>) {
    f.refs == Holders(file, f.inode) + f.leaked && (f.unlinked ==> f.refs > 0)
  }

  ghost predicate AllRefsOk(fs: seq<File>, file: seq<Option<nat>>) {
    forall i :: 0 <= i < |fs| ==> RefsOk(fs[i], file)
  }

  ghost predicate Live(fs: seq<File>, inode: nat) {
    exists i :: 0 <= i < |fs| && fs[i].inode == inode
  }

  /** No handle refers to a file that is gone. */
  ghost predicate HandlesLive(fs: seq<File>, file: seq<Option<nat>>) {
    forall h :: 0 <= h < |file| && file[h].Some? ==> Live(fs, file[h].value)
  }

  ghost predicate FsInv(s: Fs) {
    Inv(s.vol) && PoolOk(s.free, s.file) && AllRefsOk(s.vol.files, s.file) && HandlesLive(s.vol.files, s.file)
  }

  // ----- the operations

  datatype Event =
    | Create(path: seq<byte>, table: seq<Chain>)
    | Open(path: seq<byte>)
    | Release(h: nat)
    | Rename(from: seq<byte>, to: seq<byte>)
    | Unlink(path: seq<byte>)
    | Write(h: nat, buff: seq<byte>, off: nat)

  /** What each operation asks for: names of at most ten bytes, room for one more directory
      entry, and a handle that is open. */
  ghost predicate Allowed(s: Fs, e: Event)
    requires FsInv(s)
  {
    match e
    case Create(path, table) =>
      |path| <= NAME_LEN && |table| == MAX_FILE_CHAINS && |Linked(s.vol.files)| < MAX_ENTRIES
    case Open(path) => true
    case Release(h) => h < HANDLES && s.file[h].Some?
    case Rename(from, to) => |to| <= NAME_LEN
    case Unlink(path) => true
    case Write(h, buff, off) =>
      h < HANDLES && s.file[h].Some? && MayWrite(s.vol, Held(s, h), off, |buff|)
  }

  /** Position in the file list of the file a handle is open on. */
  ghost function Held(s: Fs, h: nat): (i: nat)
    requires FsInv(s) && h < HANDLES && s.file[h].Some?
    ensures i < |s.vol.files| && s.vol.files[i].inode == s.file[h].value
  {
    assert Live(s.vol.files, s.file[h].value);
    IndexOf(s.vol.files, s.file[h].value)
  }

  ghost function Step(s: Fs, e: Event): Fs
    requires FsInv(s) && Allowed(s, e)
  {
    match e
    case Create(path, table) => FsCreate(s, path, table)
    case Open(path) => FsOpen(s, path)
    case Release(h) => FsRelease(s, h)
    case Rename(from, to) => FsRename(s, from, to)
    case Unlink(path) => FsUnlink(s, path)
    case Write(h, buff, off) => FsWrite(s, h, buff, off).0
  }

  /** tidsk_create: refused when the name exists, linked or not, or no handle is free. */
  ghost function FsCreate(s: Fs, path: seq<byte>, table: seq<Chain>): Fs
    requires FsInv(s) && Allowed(s, Create(path, table))
  {
    if Find(s.vol.files, path) != -1 || s.free == [] then s
    else
      var (v, r) := FileCreate(s.vol, path, table);
      if r == None then s.(vol := v)
      else Fs(v, s.free[1..], s.file[s.free[0] := r])
  }

  ghost function FsOpen(s: Fs, path: seq<byte>): Fs
    requires FsInv(s)
  {
    if s.free == [] then s
    else
      var (v, r) := FileOpen(s.vol, path);
      if r == None then s else Fs(v, s.free[1..], s.file[s.free[0] := r])
  }

  lemma HeldRefs(s: Fs, h: nat)
    requires FsInv(s) && h < HANDLES && s.file[h].Some?
    ensures s.vol.files[Held(s, h)].refs > 0
  {
    hide Inv, Live, Holders;
    SomeHolder(s.file, h, s.file[h].value);
    assert RefsOk(s.vol.files[Held(s, h)], s.file);
  }

  ghost function FsRelease(s: Fs, h: nat): Fs
    requires FsInv(s) && h < HANDLES && s.file[h].Some?
  {
    HeldRefs(s, h);
    Fs(FileClose(s.vol, Held(s, h)), [h] + s.free, s.file[h := None])
  }

  ghost function FsUnlink(s: Fs, path: seq<byte>): Fs
    requires FsInv(s)
  {
    s.(vol := FileUnlink(s.vol, path).0)
  }

  ghost function FsWrite(s: Fs, h: nat, buff: seq<byte>, off: nat): (Fs, nat)
    requires FsInv(s) && Allowed(s, Write(h, buff, off))
  {
    var (v, n) := FileWrite(s.vol, Held(s, h), buff, off);
    (s.(vol := v), n)
  }

  /** tidsk_rename opens the file to find it and never closes it. */
  ghost function FsRename(s: Fs, from: seq<byte>, to: seq<byte>): Fs
    requires FsInv(s) && |to| <= NAME_LEN
  {
    var i := Find(s.vol.files, from);
    if i == -1 then s
    else
      LeakKeeps(s.vol, i);
      s.(vol := FileRename(Leaked(s.vol, i), i, to))
  }

  /** The volume after an open whose reference nobody keeps. */
  function Leaked(v: Vol, i: nat): Vol
    requires i < |v.files|
  {
    v.(files := v.files[i := v.files[i].(refs := v.files[i].refs + 1, leaked := v.files[i].leaked + 1)])
  }

  lemma LeakKeeps(v: Vol, i: nat)
    requires Inv(v) && i < |v.files|
    ensures Inv(Leaked(v, i))
  {
    hide Inv;
    RecountKeeps(v, i, v.files[i].(refs := v.files[i].refs + 1, leaked := v.files[i].leaked + 1));
  }

  // ----- each operation keeps the invariant

  lemma LiveAt(fs: seq<File>, i: nat, inode: nat)
    requires i < |fs| && fs[i].inode == inode
    ensures Live(fs, inode)
  {
  }

  lemma FreshInode(v: Vol, file: seq<Option<nat>>)
    requires Inv(v) && HandlesLive(v.files, file)
    ensures !Live(v.files, v.next) && Holders(file, v.next) == 0
  {
    hide Allocated, UniqueInodes, Sorted, Synced, EntryOk, Linked, DirBytes;
    forall h | 0 <= h < |file| ensures file[h] != Some(v.next) {
      if file[h].Some? {
        assert Live(v.files, file[h].value);
      }
    }
    NoHolders(file, v.next);
  }

  /** The list gains a file held by the handle just taken. */
  lemma InsertRefs(fs: seq<File>, k: nat, f: File, file: seq<Option<nat>>, h: nat)
    requires k <= |fs| && h < |file| && file[h] == None && AllRefsOk(fs, file) && HandlesLive(fs, file)
    requires !Live(fs, f.inode) && Holders(file, f.inode) == 0 && f.refs == 1 && f.leaked == 0
    ensures AllRefsOk(InsertAt(fs, k, f), file[h := Some(f.inode)])
    ensures HandlesLive(InsertAt(fs, k, f), file[h := Some(f.inode)])
  {
    hide Holders, Live;
    var gs, file' := InsertAt(fs, k, f), file[h := Some(f.inode)];
    forall i | 0 <= i < |gs| ensures RefsOk(gs[i], file') {
      HoldersUpdate(file, h, Some(f.inode), gs[i].inode);
      if i != k {
        assert gs[i] == fs[Before(k, i)];
        LiveAt(fs, Before(k, i), gs[i].inode);
        assert RefsOk(fs[Before(k, i)], file);
      }
    }
    forall j | 0 <= j < |file'| && file'[j].Some? ensures Live(gs, file'[j].value) {
      if j == h {
        LiveAt(gs, k, f.inode);
      } else {
        InsertLive(fs, k, f, file[j].value);
      }
    }
  }

  lemma InsertLive(fs: seq<File>, k: nat, f: File, inode: nat)
    requires k <= |fs|
    ensures Live(InsertAt(fs, k, f), inode) <==> Live(fs, inode) || inode == f.inode
  {
    var gs := InsertAt(fs, k, f);
    if Live(fs, inode) {
      var i :| 0 <= i < |fs| && fs[i].inode == inode;
      LiveAt(gs, if i < k then i else i + 1, inode);
    }
    if inode == f.inode {
      LiveAt(gs, k, inode);
    }
    if Live(gs, inode) && inode != f.inode {
      var i :| 0 <= i < |gs| && gs[i].inode == inode;
      LiveAt(fs, Before(k, i), inode);
    }
  }

  /** One file's counters change in step with the handles. */
  lemma ReplaceRefs(fs: seq<File>, i: nat, g: File, file: seq<Option<nat>>, file': seq<Option<nat>>)
    requires UniqueInodes(fs) && i < |fs| && g.inode == fs[i].inode && AllRefsOk(fs, file) && RefsOk(g, file')
    requires forall x :: x != g.inode ==> Holders(file', x) == Holders(file, x)
    requires forall h :: 0 <= h < |file'| && file'[h].Some? ==> Live(fs, file'[h].value)
    ensures AllRefsOk(fs[i := g], file') && HandlesLive(fs[i := g], file')
  {
    hide Holders, Live;
    var gs := fs[i := g];
    forall k | 0 <= k < |gs| ensures RefsOk(gs[k], file') {
      if k != i {
        assert RefsOk(fs[k], file);
        assert fs[k].inode != fs[i].inode;
      }
    }
    forall h | 0 <= h < |file'| && file'[h].Some? ensures Live(gs, file'[h].value) {
      ReplaceLive(fs, i, g, file'[h].value);
    }
  }

  lemma ReplaceLive(fs: seq<File>, i: nat, g: File, inode: nat)
    requires i < |fs| && g.inode == fs[i].inode
    ensures Live(fs, inode) <==> Live(fs[i := g], inode)
  {
    if Live(fs, inode) {
      var k :| 0 <= k < |fs| && fs[k].inode == inode;
      LiveAt(fs[i := g], k, inode);
    }
    if Live(fs[i := g], inode) {
      var k :| 0 <= k < |fs| && fs[i := g][k].inode == inode;
      LiveAt(fs, k, inode);
    }
  }

  /** A file nobody holds goes. */
  lemma RemoveRefs(fs: seq<File>, k: nat, file: seq<Option<nat>>)
    requires UniqueInodes(fs) && k < |fs| && AllRefsOk(fs, file) && HandlesLive(fs, file)
    requires Holders(file, fs[k].inode) == 0
    ensures AllRefsOk(RemoveAt(fs, k), file) && HandlesLive(RemoveAt(fs, k), file)
    ensures !Live(RemoveAt(fs, k), fs[k].inode)
  {
    hide Holders, Live;
    var gs := RemoveAt(fs, k);
    forall i | 0 <= i < |gs| ensures RefsOk(gs[i], file) {
      assert gs[i] == fs[After(k, i)];
      assert RefsOk(fs[After(k, i)], file);
    }
    forall h | 0 <= h < |file| && file[h].Some? ensures Live(gs, file[h].value) {
      SomeHolder(file, h, file[h].value);
      RemoveLive(fs, k, file[h].value);
    }
    RemoveLive(fs, k, fs[k].inode);
  }

  lemma RemoveLive(fs: seq<File>, k: nat, inode: nat)
    requires UniqueInodes(fs) && k < |fs|
    ensures Live(RemoveAt(fs, k), inode) <==> Live(fs, inode) && inode != fs[k].inode
  {
    var gs := RemoveAt(fs, k);
    if Live(gs, inode) {
      var i :| 0 <= i < |gs| && gs[i].inode == inode;
      LiveAt(fs, After(k, i), inode);
      assert After(k, i) != k;
    }
    if Live(fs, inode) && inode != fs[k].inode {
      var i :| 0 <= i < |fs| && fs[i].inode == inode;
      LiveAt(gs, Before(k, i), inode);
    }
  }

  /** A file moves to another place in the list. */
  lemma MoveRefs(fs: seq<File>, i: nat, k: nat, g: File, file: seq<Option<nat>>)
    requires i < |fs| && k <= |fs| - 1 && AllRefsOk(fs, file) && HandlesLive(fs, file)
    requires g.inode == fs[i].inode && RefsOk(g, file)
    ensures AllRefsOk(InsertAt(RemoveAt(fs, i), k, g), file) && HandlesLive(InsertAt(RemoveAt(fs, i), k, g), file)
  {
    hide Holders, Live, RefsOk;
    var gs := InsertAt(RemoveAt(fs, i), k, g);
    forall j | 0 <= j < |gs| ensures RefsOk(gs[j], file) {
      if j != k {
        assert gs[j] == fs[After(i, Before(k, j))];
      }
    }
    forall h | 0 <= h < |file| && file[h].Some? ensures Live(gs, file[h].value) {
      MoveLive(fs, i, k, g, file[h].value);
    }
  }

  lemma MoveLive(fs: seq<File>, i: nat, k: nat, g: File, inode: nat)
    requires i < |fs| && k <= |fs| - 1 && g.inode == fs[i].inode
    ensures Live(InsertAt(RemoveAt(fs, i), k, g), inode) <==> Live(fs, inode)
  {
    hide RemoveAt, InsertAt;
    var rest := RemoveAt(fs, i);
    InsertLive(rest, k, g, inode);
    if Live(fs, inode) && inode != g.inode {
      var a :| 0 <= a < |fs| && fs[a].inode == inode;
      LiveAt(rest, Before(i, a), inode);
    }
    if inode == g.inode {
      LiveAt(fs, i, inode);
    }
    if Live(rest, inode) {
      var a :| 0 <= a < |rest| && rest[a].inode == inode;
      LiveAt(fs, After(i, a), inode);
    }
  }

  lemma CreateKeeps(s: Fs, path: seq<byte>, table: seq<Chain>)
    requires FsInv(s) && Allowed(s, Create(path, table))
    ensures FsInv(FsCreate(s, path, table))
  {
    hide Inv, PoolOk, AllRefsOk, HandlesLive, Linked, FileCreate, NewFile, Live, Holders, Position, Flush, Allocated;
    if Find(s.vol.files, path) == -1 && s.free != [] {
      var (v, r) := FileCreate(s.vol, path, table);
      if r == None {
        NotCreated(s.vol, path, table);
      } else {
        CreatedAs(s.vol, path, table);
        CreateLaw(s.vol, path, table);
        FreshInode(s.vol, s.file);
        TakeHandle(s.free, s.file, s.vol.next);
        var f := NewFile(s.vol.next, path, table).(dir := FirstFree(s.vol.disk, 0), refs := 1);
        InsertRefs(s.vol.files, Position(s.vol.files, Name(f)), f, s.file, s.free[0]);
      }
    }
  }

  lemma CreatedAs(v: Vol, path: seq<byte>, table: seq<Chain>)
    requires Inv(v) && |table| == MAX_FILE_CHAINS && |path| <= NAME_LEN
    ensures WfVol(v)
    ensures var f := NewFile(v.next, path, table).(dir := FirstFree(v.disk, 0), refs := 1);
            WfFiles(v.files) && WfFile(f) && f.inode == v.next && f.leaked == 0 && f.refs == 1
  {
    SteadyWf(v);
    hide AllOwned, Apart, Exact, UniqueInodes, Sorted, Synced, EntriesOk, Linked, DirBytes, TiName;
  }

  lemma NotCreated(v: Vol, path: seq<byte>, table: seq<Chain>)
    requires Inv(v) && |Linked(v.files)| < MAX_ENTRIES && |table| == MAX_FILE_CHAINS && |path| <= NAME_LEN
    requires FileCreate(v, path, table).1 == None
    ensures FileCreate(v, path, table).0 == v.(next := v.next + 1)
  {
    hide Inv, Flush, Joined, Linked, FirstFree, Position;
  }

  lemma UniqueIn(v: Vol)
    requires Inv(v)
    ensures UniqueInodes(v.files)
  {
    hide Allocated, UniqueInodes, Sorted, Synced, EntriesOk, Linked, DirBytes;
  }

  lemma OpenKeeps(s: Fs, path: seq<byte>)
    requires FsInv(s)
    ensures FsInv(FsOpen(s, path))
  {
    hide Inv, PoolOk, Live, Holders;
    var i := Find(s.vol.files, path);
    if s.free != [] && i != -1 {
      var f := s.vol.files[i];
      TakeHandle(s.free, s.file, f.inode);
      UniqueIn(s.vol);
      var h, file' := s.free[0], s.file[s.free[0] := Some(f.inode)];
      forall x ensures Holders(file', x) == Holders(s.file, x) + if x == f.inode then 1 else 0 {
        HoldersUpdate(s.file, h, Some(f.inode), x);
      }
      LiveAt(s.vol.files, i, f.inode);
      assert RefsOk(f, s.file);
      ReplaceRefs(s.vol.files, i, f.(refs := f.refs + 1), s.file, file');
    }
  }

  lemma ReleaseKeeps(s: Fs, h: nat)
    requires FsInv(s) && h < HANDLES && s.file[h].Some?
    ensures FsInv(FsRelease(s, h))
  {
    hide Inv, PoolOk, Live, Holders, FreeFile, UniqueInodes, EntriesOk;
    HeldRefs(s, h);
    var i := Held(s, h);
    var f := s.vol.files[i].(refs := s.vol.files[i].refs - 1);
    GiveHandle(s.free, s.file, h);
    var file' := s.file[h := None];
    UniqueIn(s.vol);
    forall x ensures Holders(file', x) == Holders(s.file, x) - if x == f.inode then 1 else 0 {
      HoldersUpdate(s.file, h, None, x);
    }
    assert RefsOk(s.vol.files[i], s.file);
    var fs := s.vol.files[i := f];
    if f.refs == 0 && f.unlinked {
      ClosedLast(s.vol.files, i, f, s.file, file');
    } else {
      ReplaceRefs(s.vol.files, i, f, s.file, file');
    }
  }

  lemma ClosedLast(fs: seq<File>, i: nat, f: File, file: seq<Option<nat>>, file': seq<Option<nat>>)
    requires UniqueInodes(fs) && i < |fs| && f == fs[i].(refs := 0) && fs[i].refs == 1 && f.leaked == 0
    requires AllRefsOk(fs, file) && HandlesLive(fs, file) && |file'| == |file|
    requires forall h :: 0 <= h < |file| && file'[h].Some? ==> file'[h] == file[h]
    requires forall x :: Holders(file', x) == Holders(file, x) - if x == f.inode then 1 else 0
    ensures AllRefsOk(RemoveAt(fs[i := f], i), file') && HandlesLive(RemoveAt(fs[i := f], i), file')
  {
    hide Holders, Live;
    var gs := RemoveAt(fs[i := f], i);
    assert RefsOk(fs[i], file);
    forall k | 0 <= k < |gs| ensures RefsOk(gs[k], file') {
      assert gs[k] == fs[After(i, k)];
      assert RefsOk(fs[After(i, k)], file);
      assert fs[After(i, k)].inode != fs[i].inode;
    }
    forall h | 0 <= h < |file'| && file'[h].Some? ensures Live(gs, file'[h].value) {
      SomeHolder(file', h, file'[h].value);
      assert Live(fs, file[h].value);
      ReplaceLive(fs, i, f, file[h].value);
      RemoveLive(fs[i := f], i, file[h].value);
    }
  }

  lemma RenameKeeps(s: Fs, from: seq<byte>, to: seq<byte>)
    requires FsInv(s) && |to| <= NAME_LEN
    ensures FsInv(FsRename(s, from, to))
  {
    hide Inv, PoolOk, Live, Holders, Renamed, Position, FileRename, RefsOk;
    var i := Find(s.vol.files, from);
    if i != -1 {
      LeakKeeps(s.vol, i);
      var v := Leaked(s.vol, i);
      RenameLaw(v, i, to);
      RenamedAs(s, i, to);
      UniqueIn(s.vol);
      ReplaceRefs(s.vol.files, i, v.files[i], s.file, s.file);
      var g := Renamed(v.files[i], to).(dirty := false);
      MoveRefs(v.files, i, Position(RemoveAt(v.files, i), Name(g)), g, s.file);
    }
  }

  lemma RenamedAs(s: Fs, i: nat, to: seq<byte>)
    requires FsInv(s) && i < |s.vol.files| && |to| <= NAME_LEN && WfFile(s.vol.files[i])
    ensures var f := Leaked(s.vol, i).files[i];
            WfFile(f) && RefsOk(f, s.file) && RefsOk(Renamed(f, to).(dirty := false), s.file)
    ensures Renamed(Leaked(s.vol, i).files[i], to).inode == s.vol.files[i].inode
  {
    hide Inv, PoolOk, Live, Holders, PutName;
    assert RefsOk(s.vol.files[i], s.file);
  }

  lemma UnlinkKeeps(s: Fs, path: seq<byte>)
    requires FsInv(s)
    ensures FsInv(FsUnlink(s, path))
  {
    hide Inv, PoolOk, Live, Holders, FileUnlink, FreeFile;
    var i := Find(s.vol.files, path);
    if i == -1 {
      NotUnlinked(s.vol, path);
    } else {
      UnlinkLaw(s.vol, path);
      UniqueIn(s.vol);
      assert RefsOk(s.vol.files[i], s.file);
      if s.vol.files[i].refs == 0 {
        RemoveRefs(s.vol.files, i, s.file);
      } else {
        ReplaceRefs(s.vol.files, i, s.vol.files[i].(unlinked := true), s.file, s.file);
      }
    }
  }

  lemma NotUnlinked(v: Vol, path: seq<byte>)
    requires Inv(v) && Find(v.files, path) == -1
    ensures FileUnlink(v, path).0 == v
  {
    hide Inv;
  }

  lemma WriteKeeps(s: Fs, h: nat, buff: seq<byte>, off: nat)
    requires FsInv(s) && Allowed(s, Write(h, buff, off))
    ensures FsInv(FsWrite(s, h, buff, off).0)
  {
    hide Inv, PoolOk, Live, Holders, FileWrite, MayWrite;
    UniqueIn(s.vol);
    var i := Held(s, h);
    var v' := FileWrite(s.vol, i, buff, off).0;
    assert RefsOk(s.vol.files[i], s.file);
    assert v'.files == s.vol.files[i := v'.files[i]];
    ReplaceRefs(s.vol.files, i, v'.files[i], s.file, s.file);
  }

  lemma StepKeeps(s: Fs, e: Event)
    requires FsInv(s) && Allowed(s, e)
    ensures FsInv(Step(s, e))
  {
    hide FsInv, FsCreate, FsOpen, FsRelease, FsRename, FsUnlink, FsWrite;
    match e
    case Create(path, table) => CreateKeeps(s, path, table);
    case Open(path) => OpenKeeps(s, path);
    case Release(h) => ReleaseKeeps(s, h);
    case Rename(from, to) => RenameKeeps(s, from, to);
    case Unlink(path) => UnlinkKeeps(s, path);
    case Write(h, buff, off) => WriteKeeps(s, h, buff, off);
  }

  // ----- the start

  ghost function Mounted(v: Vol): Fs
  {
    Fs(v, seq(HANDLES, i => i), seq(HANDLES, _ => None))
  }

  ghost predicate Unheld(fs: seq<File>) {
    forall i :: 0 <= i < |fs| ==> fs[i].refs == 0 && fs[i].leaked == 0 && !fs[i].unlinked
  }

  /** Mounting a sound volume: all 128 handles free. */
  lemma MountKeeps(v: Vol)
    requires Inv(v) && Unheld(v.files)
    ensures FsInv(Mounted(v))
  {
    hide Inv, Holders;
    var s := Mounted(v);
    forall h | 0 <= h < HANDLES ensures h in s.free {
      assert s.free[h] == h;
    }
    forall i | 0 <= i < |v.files| ensures RefsOk(v.files[i], s.file) {
      NoHolders(s.file, v.files[i].inode);
    }
  }
}
