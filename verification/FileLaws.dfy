/** What one file's operations promise, and exactly when write keeps its promise. */
module FileLaws {
  import opened Bytes
  import opened SectorMap
  import opened Chains
  import opened FileModel

  /** A file on a disk: sound runs and its own directory sector. */
  ghost predicate Owned(d: Disk, f: File) {
    && Sound(d, f) && 2 <= f.dir < |d.dev| && f.dir !in Sectors(f) && Used(d.vol, f.dir)
  }

  /** Inside the allocated sectors, or from their end on, or with no sector left to take. */
  ghost predicate Regular(d: Disk, f: File, off: nat, len: nat)
    requires WfDisk(d) && WfFile(f)
  {
    || len == 0
    || off + len <= SECTOR * |Sectors(f)|
    || off >= SECTOR * |Sectors(f)|
    || FirstFree(d, FIRST_DATA_SECTOR) == -1
  }

  ghost predicate SameIdentity(f: File, f': File) {
    && f'.inode == f.inode && f'.osname == f.osname && f'.dir == f.dir
    && f'.unlinked == f.unlinked && f'.refs == f.refs && f'.leaked == f.leaked
    && |f.hdr| == |f'.hdr| == SECTOR && f'.hdr[..NAME_LEN] == f.hdr[..NAME_LEN]
  }

  lemma {:induction false} NoFree(d: Disk, start: nat)
    requires WfDisk(d)
    ensures FirstFree(d, start) == -1 <==> FreeCount(d, start) == 0
    decreases |d.dev| - start
  {
    hide Used;
    if start < |d.dev| {
      NoFree(d, start + 1);
    }
  }

  /** Bytes that can still be stored from off on. */
  function Room(d: Disk, f: File, off: nat): int
    requires WfDisk(d) && WfFile(f)
  {
    SECTOR * (|Sectors(f)| + FreeCount(d, FIRST_DATA_SECTOR)) - off
  }

  function Clip(len: nat, room: int): (n: nat)
    ensures n <= len
  {
    if room < 0 then 0 else if len <= room then len else room
  }

  // ----- the loop in either regime, from where write seeks to

  ghost predicate LoopDid(d: Disk, f: File, off: nat, buff: seq<byte>, d1: Disk, f1: File, total: nat, news: seq<int>) {
    && WfDisk(d) && WfFile(f) && Sound(d1, f1) && SameButRuns(f, f1) && Sectors(f1) == Sectors(f) + news
    && Gained(d, d1, news) && OnlyWrites(d, d1, Sectors(f1)) && InRange(d, Sectors(f1))
    && total == Clip(|buff|, Room(d, f, off))
    && (buff == [] ==> news == [])
    && (buff != [] ==> |Sectors(f1)| == |Sectors(f)| || SECTOR * |Sectors(f1)| < off + |buff| + SECTOR)
    && off + total <= (if total == 0 then off else SECTOR * |Sectors(f1)|)
    && LoopBytes(d, Sectors(f1), off, buff[..total], d1)
    && (d1.changed || (d1.vol == d.vol && !d.changed))
  }

  ghost predicate LoopBytes(d: Disk, ss: seq<int>, off: nat, data: seq<byte>, d1: Disk)
    requires WfDisk(d) && WfDisk(d1) && InRange(d, ss) && InRange(d1, ss)
    requires data != [] ==> off + |data| <= SECTOR * |ss|
  {
    Content(d1, ss) == if data == [] then Content(d, ss) else Splice(Content(d, ss), off, data)
  }

  lemma SoundBasics(d: Disk, f: File)
    requires Sound(d, f)
    ensures WfDisk(d) && WfFile(f) && InRange(d, Sectors(f)) && Distinct(Sectors(f))
  {
  }

  lemma GainedNothing(d: Disk, d1: Disk)
    requires WfDisk(d) && WfDisk(d1) && d.vol == d1.vol && |d.dev| == |d1.dev|
    ensures Gained(d, d1, [])
  {
    FirstFreeSame(d, d1, FIRST_DATA_SECTOR);
  }

  lemma SeekReady(d: Disk, f: File, off: nat, len: nat)
    requires CanWrite(d, f, off, len)
    ensures WfDisk(d) && WfFile(f) && |Sectors(f)| == SecCount(f.hdr)
    ensures Safe(d, f, Seek(f, off, len)) && Seek(f, off, len).total == 0 && Seek(f, off, len).len == len
  {
    SeekSafe(d, f, off, len);
  }

  lemma LoopInside(d: Disk, f: File, off: nat, buff: seq<byte>)
    requires CanWrite(d, f, off, |buff|) && Regular(d, f, off, |buff|)
    requires buff != [] && off < SECTOR * |Sectors(f)|
    ensures Safe(d, f, Seek(f, off, |buff|))
    ensures var (d1, f1, c1) := WriteLoop(d, f, Seek(f, off, |buff|), buff);
            LoopDid(d, f, off, buff, d1, f1, c1.total, [])
  {
    SeekReady(d, f, off, |buff|);
    SeekInside(d, f, off, |buff|);
    hide Walk, Safe, Sound, WriteLoop, LoopDid, Seek, Inside;
    InsideLoop(d, f, Seek(f, off, |buff|), off / SECTOR, off, buff);
  }

  lemma SeekInside(d: Disk, f: File, off: nat, len: nat)
    requires CanWrite(d, f, off, len) && len > 0 && off < SECTOR * |Sectors(f)|
    ensures var c := Seek(f, off, len);
            Inside(d, f, c, off / SECTOR) && SECTOR * (off / SECTOR) + c.offset == off
  {
    SeekSafe(d, f, off, len);
  }

  lemma InsideLoop(d: Disk, f: File, c: Cursor, q: nat, off: nat, buff: seq<byte>)
    requires Inside(d, f, c, q) && SECTOR * q + c.offset == off && c.len == |buff| && c.total == 0
    requires off + |buff| <= SECTOR * |Sectors(f)| || FirstFree(d, FIRST_DATA_SECTOR) == -1
    ensures var (d1, f1, c1) := WriteLoop(d, f, c, buff);
            LoopDid(d, f, off, buff, d1, f1, c1.total, [])
  {
    InsideBasics(d, f, c, q);
    hide Walk, Safe, WriteLoop, Content, Splice, OnlyWrites, FirstFree, LoopDid, Min, InRange, Distinct;
    InPlace(d, f, c, q, buff);
    hide Sound;
    var (d1, f1, c1) := WriteLoop(d, f, c, buff);
    InsideDid(d, f, off, buff, d1, c1.total);
  }

  lemma InsideDid(d: Disk, f: File, off: nat, buff: seq<byte>, d1: Disk, total: nat)
    requires Sound(d, f) && Sound(d1, f) && OnlyWrites(d, d1, Sectors(f)) && d1.vol == d.vol && d1.changed == d.changed
    requires buff != [] && off < SECTOR * |Sectors(f)| && total == Min(|buff|, SECTOR * |Sectors(f)| - off)
    requires off + |buff| <= SECTOR * |Sectors(f)| || FirstFree(d, FIRST_DATA_SECTOR) == -1
    requires Content(d1, Sectors(f)) == Splice(Content(d, Sectors(f)), off, buff[0..total])
    ensures LoopDid(d, f, off, buff, d1, f, total, [])
  {
    var ss := Sectors(f);
    SoundBasics(d, f);
    SoundBasics(d1, f);
    hide Walk, Sound, Content, Splice, FreeCount, Gained, SameButRuns, OnlyWrites, FirstFree, Distinct, InRange, Clip,
      Min;
    NoFree(d, FIRST_DATA_SECTOR);
    InsideArithmetic(|ss|, FreeCount(d, FIRST_DATA_SECTOR), off, |buff|, total);
    GainedNothing(d, d1);
    assert ss + [] == ss;
    assert buff[0..total] == buff[..total];
    SameRuns(f);
  }

  lemma InsideArithmetic(n: nat, free: nat, off: nat, len: nat, total: nat)
    requires len > 0 && off < SECTOR * n && total == Min(len, SECTOR * n - off)
    requires off + len <= SECTOR * n || free == 0
    ensures total == Clip(len, SECTOR * (n + free) - off) && 0 < total <= len && off + total <= SECTOR * n
  {
  }

  lemma SameRuns(f: File)
    requires WfFile(f)
    ensures SameButRuns(f, f)
  {
  }

  lemma PastArithmetic(n: nat, news: nat, free0: nat, free1: nat, off: nat, len: nat, total: nat)
    requires off >= SECTOR * n && free0 == news + free1 && total <= len
    requires total < len ==> free1 == 0
    requires len == 0 ==> news == 0
    requires total == len && len > 0 ==> off + len <= SECTOR * (n + news)
    requires news == 0 ==> total == 0
    requires news > 0 && total < len ==> off + total == SECTOR * (n + news)
    ensures total == Clip(len, SECTOR * (n + free0) - off)
  {
  }

  lemma PastBytes(d: Disk, f: File, off: nat, c: Cursor, buff: seq<byte>, d1: Disk, f1: File, c1: Cursor, news: seq<int>)
    requires Sound(d, f) && WfFile(f1) && c.total + c.len == |buff| && AppendDone(d, f, c, buff, d1, f1, c1, news)
    requires c.total == 0 && off == SECTOR * |Sectors(f)| + c.offset
    ensures InRange(d1, Sectors(f1)) && c1.total <= |buff|
    ensures c1.total > 0 ==> off + c1.total <= SECTOR * |Sectors(f1)|
    ensures LoopBytes(d, Sectors(f1), off, buff[..c1.total], d1)
  {
    hide Walk, Content, Splice, Used, FreeCount, Gained, SameButRuns;
    if c1.total == 0 && news != [] {
      SpliceNothing(Content(d, Sectors(f1)), off);
    }
    assert buff[0..c1.total] == buff[..c1.total];
  }

  lemma NewsInside(d: Disk, d1: Disk, earlier: seq<int>, news: seq<int>)
    requires OnlyWrites(d, d1, news)
    ensures OnlyWrites(d, d1, earlier + news)
  {
    assert forall i :: 0 <= i < |news| ==> (earlier + news)[|earlier| + i] == news[i];
    assert forall s :: s in news ==> s in earlier + news;
  }

  lemma LoopPast(d: Disk, f: File, off: nat, buff: seq<byte>) returns (news: seq<int>)
    requires CanWrite(d, f, off, |buff|) && off >= SECTOR * |Sectors(f)|
    ensures Safe(d, f, Seek(f, off, |buff|))
    ensures var (d1, f1, c1) := WriteLoop(d, f, Seek(f, off, |buff|), buff);
            LoopDid(d, f, off, buff, d1, f1, c1.total, news)
  {
    SoundBasics(d, f);
    hide Walk, Safe, Sound, WriteLoop, AppendDone, LoopDid;
    SeekSafe(d, f, off, |buff|);
    var c := Seek(f, off, |buff|);
    news := Append(d, f, c, buff);
    var (d1, f1, c1) := WriteLoop(d, f, c, buff);
    PastDid(d, f, off, c, buff, d1, f1, c1, news);
  }

  lemma GainedCounts(d: Disk, d1: Disk, news: seq<int>)
    requires WfDisk(d) && WfDisk(d1) && Gained(d, d1, news)
    ensures FreeCount(d, FIRST_DATA_SECTOR) == |news| + FreeCount(d1, FIRST_DATA_SECTOR) && |d1.dev| == |d.dev|
  {
  }

  lemma PastDid(d: Disk, f: File, off: nat, c: Cursor, buff: seq<byte>, d1: Disk, f1: File, c1: Cursor, news: seq<int>)
    requires Sound(d, f) && c.len == |buff| && c.total == 0 && off == SECTOR * |Sectors(f)| + c.offset
    requires AppendDone(d, f, c, buff, d1, f1, c1, news)
    ensures LoopDid(d, f, off, buff, d1, f1, c1.total, news)
  {
    SoundBasics(d, f);
    hide Walk, Content, Splice, FreeCount, AppendBytes, LoopBytes, SameButRuns, OnlyWrites, InRange, Distinct, Sound,
      FirstFree;
    SoundBasics(d1, f1);
    NoFree(d1, FIRST_DATA_SECTOR);
    GainedCounts(d, d1, news);
    hide Gained;
    PastBytes(d, f, off, c, buff, d1, f1, c1, news);
    NewsInside(d, d1, Sectors(f), news);
    PastArithmetic(|Sectors(f)|, |news|, FreeCount(d, FIRST_DATA_SECTOR), FreeCount(d1, FIRST_DATA_SECTOR), off, |buff|, c1.total);
  }

  lemma LoopNothing(d: Disk, f: File, off: nat)
    requires CanWrite(d, f, off, 0) && off < SECTOR * |Sectors(f)|
    ensures Safe(d, f, Seek(f, off, 0))
    ensures var (d1, f1, c1) := WriteLoop(d, f, Seek(f, off, 0), []);
            LoopDid(d, f, off, [], d1, f1, c1.total, [])
  {
    hide Walk, Content, Splice, Used, FreeCount, Gained;
    SeekSafe(d, f, off, 0);
    LoopDone(d, f, Seek(f, off, 0), []);
    GainedNothing(d, d);
    assert Sectors(f) + [] == Sectors(f);
  }

  lemma LoopRegular(d: Disk, f: File, off: nat, buff: seq<byte>) returns (news: seq<int>)
    requires CanWrite(d, f, off, |buff|) && Regular(d, f, off, |buff|)
    ensures Safe(d, f, Seek(f, off, |buff|))
    ensures var (d1, f1, c1) := WriteLoop(d, f, Seek(f, off, |buff|), buff);
            LoopDid(d, f, off, buff, d1, f1, c1.total, news)
  {
    SoundBasics(d, f);
    hide CanWrite, LoopDid, Safe, WriteLoop;
    if off >= SECTOR * |Sectors(f)| {
      news := LoopPast(d, f, off, buff);
    } else if buff == [] {
      news := [];
      LoopNothing(d, f, off);
    } else {
      news := [];
      LoopInside(d, f, off, buff);
    }
  }

  // ----- write as a whole

  /** secCount is the ceiling of length/256 and the offset byte its remainder: what reading the
      entry back needs to find the length again. */
  ghost predicate Sized(f: File)
    requires WfFile(f)
  {
    && 0 <= f.length <= SECTOR * |Sectors(f)| < f.length + SECTOR
    && f.hdr[EOF_AT] == f.length % SECTOR
  }

  function Max(a: int, b: int): int { if a >= b then a else b }

  lemma FinishKeeps(d: Disk, f: File, end: nat)
    requires WfDisk(d) && WfFile(f) && 2 <= f.dir < |d.dev|
    ensures var (d', f') := Finish(d, f, end);
            && WfDisk(d') && WfFile(f') && d'.vol == d.vol && |d'.dev| == |d.dev|
            && !f'.dirty && !d'.changed && d'.dev[f.dir] == f'.hdr && f'.dir == f.dir
            && (d.changed ==> d'.dev[VOL_HDR_SECTOR] == d.vol)
            && OnlyWrites(d, d', [f.dir, VOL_HDR_SECTOR])
            && (!d.changed ==> OnlyWrites(d, d', [f.dir]))
            && f'.table == f.table && f'.count == f.count && f'.length == Max(f.length, end)
            && SecCount(f'.hdr) == SecCount(f.hdr)
            && f'.hdr[EOF_AT] == (if end > f.length then end % SECTOR else f.hdr[EOF_AT])
            && f'.hdr == EncodeChains(f'.hdr, Runs(f))
            && SameIdentity(f, f')
  {
    hide Slots, SecCount;
    var f1 := if end > f.length then f.(length := end, hdr := f.hdr[EOF_AT := Byte(end)]) else f;
    EncodeKeepsFields(f1.hdr, Runs(f1));
    EncodeTwice(f1.hdr, Runs(f1));
    EofApart(f.hdr, Byte(end));
    var h := EncodeChains(f1.hdr, Runs(f1));
    assert h[..NAME_LEN] == h[..CHAIN_AT][..NAME_LEN] == f1.hdr[..CHAIN_AT][..NAME_LEN];
  }

  lemma EofApart(hdr: seq<byte>, x: byte)
    requires |hdr| == SECTOR
    ensures SecCount(hdr[EOF_AT := x]) == SecCount(hdr) && hdr[EOF_AT := x][..NAME_LEN] == hdr[..NAME_LEN]
  {
  }

  lemma EncodeTwice(hdr: seq<byte>, cs: seq<Chain>)
    requires |hdr| == SECTOR
    ensures EncodeChains(EncodeChains(hdr, cs), cs) == EncodeChains(hdr, cs)
  {
    hide Slots;
  }

  /** The volume header on the device is the one in memory unless a flush is due, and in any case
      marks every used sector: only sectors given back can be missing there. Both say how many
      sectors there are. */
  ghost predicate Synced(d: Disk) {
    && WfDisk(d) && (d.changed || d.dev[VOL_HDR_SECTOR] == d.vol) && MarkedOnDevice(d)
    && HeaderCount(d.vol) == HeaderCount(d.dev[VOL_HDR_SECTOR]) == |d.dev|
  }

  ghost predicate MarkedOnDevice(d: Disk)
    requires WfDisk(d)
  {
    forall s :: 0 <= s < |d.dev| && Used(d.vol, s) ==> Used(d.dev[VOL_HDR_SECTOR], s)
  }

  ghost predicate WriteDone(d: Disk, f: File, off: nat, buff: seq<byte>, d': Disk, f': File, total: nat, news: seq<int>) {
    && Owned(d, f) && Owned(d', f') && SameIdentity(f, f') && Sectors(f') == Sectors(f) + news
    && Gained(d, d', news) && InRange(d, Sectors(f'))
    && OnlyWrites(d, d', Sectors(f') + [f.dir, VOL_HDR_SECTOR])
    && total == Clip(|buff|, Room(d, f, off))
    && off + total <= (if total == 0 then off else SECTOR * |Sectors(f')|)
    && LoopBytes(d, Sectors(f'), off, buff[..total], d')
    && (buff == [] ==> news == [])
    && (buff != [] ==> |Sectors(f')| == |Sectors(f)| || SECTOR * |Sectors(f')| < off + |buff| + SECTOR)
    && f'.length == Max(f.length, off + |buff|)
    && !f'.dirty && !d'.changed && d'.dev[f'.dir] == f'.hdr && f'.hdr == EncodeChains(f'.hdr, Runs(f'))
    && f'.hdr[EOF_AT] == (if off + |buff| > f.length then (off + |buff|) % SECTOR else f.hdr[EOF_AT])
  }

  lemma GainedUsed(d: Disk, d1: Disk, f: File, f1: File, news: seq<int>)
    requires Owned(d, f) && Sound(d1, f1) && Sectors(f1) == Sectors(f) + news && Gained(d, d1, news)
    requires f1.dir == f.dir
    ensures Owned(d1, f1)
  {
    hide Used, FreeCount, Walk;
  }

  lemma SoundAfterFinish(d1: Disk, f1: File, d': Disk, f': File)
    requires Sound(d1, f1) && WfDisk(d') && WfFile(f') && d'.vol == d1.vol && |d'.dev| == |d1.dev|
    requires f'.table == f1.table && f'.count == f1.count && SecCount(f'.hdr) == SecCount(f1.hdr)
    ensures Sound(d', f') && Sectors(f') == Sectors(f1)
  {
    hide Used, Walk, SecCount;
  }

  lemma GainedSameBitmap(d: Disk, d1: Disk, d': Disk, news: seq<int>)
    requires WfDisk(d) && WfDisk(d1) && WfDisk(d') && Gained(d, d1, news) && d'.vol == d1.vol && |d'.dev| == |d1.dev|
    ensures Gained(d, d', news)
  {
    hide Used, FreeCount;
    FirstFreeSame(d1, d', FIRST_DATA_SECTOR);
  }

  lemma BytesAfterFinish(d: Disk, d1: Disk, d': Disk, ss: seq<int>, off: nat, data: seq<byte>, dir: int)
    requires WfDisk(d) && WfDisk(d1) && WfDisk(d') && InRange(d, ss) && InRange(d1, ss)
    requires data != [] ==> off + |data| <= SECTOR * |ss|
    requires LoopBytes(d, ss, off, data, d1) && OnlyWrites(d1, d', [dir, VOL_HDR_SECTOR])
    requires dir !in ss && forall i :: 0 <= i < |ss| ==> ss[i] >= FIRST_DATA_SECTOR
    ensures InRange(d', ss) && LoopBytes(d, ss, off, data, d')
  {
    hide Content;
    ContentSame(d1, d', ss);
  }

  lemma IdentityTwice(f: File, f1: File, f2: File)
    requires SameButRuns(f, f1) && SameIdentity(f1, f2)
    ensures SameIdentity(f, f2) && f1.hdr[EOF_AT] == f.hdr[EOF_AT]
  {
    assert f1.hdr[..NAME_LEN] == f.hdr[..NAME_LEN];
  }

  lemma OnlyWritesJoin(d: Disk, d1: Disk, d2: Disk, a: seq<int>, b: seq<int>)
    requires OnlyWrites(d, d1, a) && OnlyWrites(d1, d2, b)
    ensures OnlyWrites(d, d2, a + b)
  {
  }

  /** The law of write: for any data and offset the caller may pass, short of a straddle. */
  lemma WriteLaw(d: Disk, f: File, buff: seq<byte>, off: nat) returns (news: seq<int>)
    requires Owned(d, f) && CanWrite(d, f, off, |buff|) && Regular(d, f, off, |buff|)
    ensures var (d', f', total) := Write(d, f, buff, off);
            && WriteDone(d, f, off, buff, d', f', total, news)
            && (Synced(d) ==> Synced(d'))
  {
    SeekReady(d, f, off, |buff|);
    hide Sound, Safe, Seek, WriteLoop, CanWrite, Regular, Finish, LoopBytes, Walk, Gained, Used, SameButRuns;
    news := LoopRegular(d, f, off, buff);
    var (d1, f1, c1) := WriteLoop(d, f, Seek(f, off, |buff|), buff);
    DidBasics(d, f, off, buff, d1, f1, c1.total, news);
    FinishKeeps(d1, f1, off + |buff|);
    var (d', f') := Finish(d1, f1, off + |buff|);
    WriteIs(d, f, buff, off);
    WriteEnds(d, f, off, buff, d1, f1, c1.total, news, d', f');
    SyncedAfter(d, f, off, buff, d1, f1, c1.total, news, d');
  }

  lemma DidBasics(d: Disk, f: File, off: nat, buff: seq<byte>, d1: Disk, f1: File, total: nat, news: seq<int>)
    requires Owned(d, f) && LoopDid(d, f, off, buff, d1, f1, total, news)
    ensures WfDisk(d1) && WfFile(f1) && f1.dir == f.dir && |d1.dev| == |d.dev| && 2 <= f1.dir < |d1.dev| && f1.length == f.length
  {
  }

  lemma WriteIs(d: Disk, f: File, buff: seq<byte>, off: nat)
    requires CanWrite(d, f, off, |buff|) && Safe(d, f, Seek(f, off, |buff|))
    ensures var (d1, f1, c1) := WriteLoop(d, f, Seek(f, off, |buff|), buff);
            && WfDisk(d1) && WfFile(f1) && 0 <= f1.dir < |d1.dev|
            && Write(d, f, buff, off) == (Finish(d1, f1, off + |buff|).0, Finish(d1, f1, off + |buff|).1, c1.total)
  {
    hide Finish, WriteLoop, Safe, Walk;
    SeekSafe(d, f, off, |buff|);
    LoopKeepsShape(d, f, Seek(f, off, |buff|), buff);
  }

  lemma WriteEnds(d: Disk, f: File, off: nat, buff: seq<byte>, d1: Disk, f1: File, total: nat, news: seq<int>, d': Disk, f': File)
    requires Owned(d, f) && LoopDid(d, f, off, buff, d1, f1, total, news)
    requires WfDisk(d1) && WfFile(f1) && 2 <= f1.dir < |d1.dev| && (d', f') == Finish(d1, f1, off + |buff|)
    ensures WriteDone(d, f, off, buff, d', f', total, news)
  {
    hide Finish, LoopBytes, Walk, Gained, Used, SameButRuns, Sound, SameIdentity, OnlyWrites, SecCount, EncodeChains,
      Clip, Room;
    FinishKeeps(d1, f1, off + |buff|);
    DidBasics(d, f, off, buff, d1, f1, total, news);
    SoundAfterFinish(d1, f1, d', f');
    GainedUsed(d, d1, f, f1, news);
    OwnedAfterFinish(d1, f1, d', f');
    GainedSameBitmap(d, d1, d', news);
    SoundBasics(d1, f1);
    DataSectors(d1, f1);
    BytesAfterFinish(d, d1, d', Sectors(f1), off, buff[..total], f.dir);
    IdentityTwice(f, f1, f');
    OnlyWritesJoin(d, d1, d', Sectors(f1), [f.dir, VOL_HDR_SECTOR]);
  }

  lemma DataSectors(d: Disk, f: File)
    requires Sound(d, f)
    ensures forall i :: 0 <= i < |Sectors(f)| ==> Sectors(f)[i] >= FIRST_DATA_SECTOR
  {
  }

  lemma OwnedAfterFinish(d1: Disk, f1: File, d': Disk, f': File)
    requires Owned(d1, f1) && Sound(d', f') && Sectors(f') == Sectors(f1) && f'.dir == f1.dir
    requires d'.vol == d1.vol && |d'.dev| == |d1.dev|
    ensures Owned(d', f')
  {
  }

  lemma SyncedAfter(d: Disk, f: File, off: nat, buff: seq<byte>, d1: Disk, f1: File, total: nat, news: seq<int>, d': Disk)
    requires Owned(d, f) && LoopDid(d, f, off, buff, d1, f1, total, news)
    requires WfDisk(d1) && WfFile(f1) && 2 <= f1.dir < |d1.dev| && d' == Finish(d1, f1, off + |buff|).0
    ensures Synced(d) ==> Synced(d')
  {
    hide Finish, LoopBytes, Walk, Gained, Used, SameButRuns, Sound, SameIdentity, SecCount, EncodeChains, Clip, Room;
    FinishKeeps(d1, f1, off + |buff|);
    DataSectors(d1, f1);
    GainedCount(d, d1, news);
    assert VOL_HDR_SECTOR !in Sectors(f1);
  }

  lemma GainedCount(d: Disk, d1: Disk, news: seq<int>)
    requires WfDisk(d) && WfDisk(d1) && Gained(d, d1, news)
    ensures HeaderCount(d1.vol) == HeaderCount(d.vol)
  {
  }

  /** A straddling write, with a sector to be had, leaves the file without its old sectors in
      their old order. */
  lemma WriteStraddles(d: Disk, f: File, buff: seq<byte>, off: nat)
    requires Owned(d, f) && CanWrite(d, f, off, |buff|) && !Regular(d, f, off, |buff|)
    ensures WfFile(Write(d, f, buff, off).1)
    ensures !(Sectors(f) <= Sectors(Write(d, f, buff, off).1))
  {
    SeekReady(d, f, off, |buff|);
    hide Sound, Safe, WriteLoop, Finish, Walk;
    SeekSafe(d, f, off, |buff|);
    var c := Seek(f, off, |buff|);
    Straddle(d, f, c, off / SECTOR, buff);
    WriteIs(d, f, buff, off);
    var (d1, f1, c1) := WriteLoop(d, f, c, buff);
    LoopKeepsShape(d, f, c, buff);
    FinishKeeps(d1, f1, off + |buff|);
  }

  /** Exactly the regular writes keep the file's sectors: the guard a caller can evaluate
      before the call. */
  lemma WriteKeepsSectors(d: Disk, f: File, buff: seq<byte>, off: nat)
    requires Owned(d, f) && CanWrite(d, f, off, |buff|)
    ensures WfFile(Write(d, f, buff, off).1)
    ensures Sectors(f) <= Sectors(Write(d, f, buff, off).1) <==> Regular(d, f, off, |buff|)
  {
    OwnedBasics(d, f);
    hide Regular, Owned, CanWrite, Write, Walk;
    if Regular(d, f, off, |buff|) {
      var news := WriteLaw(d, f, buff, off);
      var (d', f', _) := Write(d, f, buff, off);
      OwnedBasics(d', f');
    } else {
      WriteStraddles(d, f, buff, off);
    }
  }

  lemma OwnedBasics(d: Disk, f: File)
    requires Owned(d, f)
    ensures WfDisk(d) && WfFile(f) && Sound(d, f)
  {
  }

  /** The in-memory length agrees with the entry afterwards exactly when the sectors reach the
      end of the request, which a full disk or an empty write far out can prevent. */
  lemma WriteKeepsSize(d: Disk, f: File, buff: seq<byte>, off: nat)
    requires Owned(d, f) && CanWrite(d, f, off, |buff|) && Regular(d, f, off, |buff|) && Sized(f)
    ensures WfFile(Write(d, f, buff, off).1)
    ensures Sized(Write(d, f, buff, off).1) <==>
              off + |buff| <= f.length || (if buff == [] then off <= SECTOR * |Sectors(f)| else |buff| <= Room(d, f, off))
  {
    hide Regular, CanWrite, Write, Walk, FreeCount, Sound, Gained, SameIdentity, LoopBytes;
    var news := WriteLaw(d, f, buff, off);
    var (d', f', total) := Write(d, f, buff, off);
    OwnedBasics(d', f');
    OwnedBasics(d, f);
    GainedCounts(d, d', news);
  }

  /** Enough free sectors and nothing is lost: the whole request is written. */
  lemma WriteComplete(d: Disk, f: File, buff: seq<byte>, off: nat)
    requires Owned(d, f) && CanWrite(d, f, off, |buff|) && Regular(d, f, off, |buff|)
    ensures Write(d, f, buff, off).2 == |buff| <==> buff == [] || |buff| <= Room(d, f, off)
  {
    hide Regular, CanWrite, Write, Walk, FreeCount, Sound, Gained, SameIdentity, LoopBytes;
    OwnedBasics(d, f);
    var news := WriteLaw(d, f, buff, off);
  }

  // ----- the file as a byte sequence

  /** What read returns: the slice, clipped at the last allocated sector. */
  function ReadSlice(d: Disk, f: File, off: nat, len: nat): (r: seq<byte>)
    requires WfDisk(d) && WfFile(f) && InRange(d, Sectors(f))
    ensures |r| <= len
  {
    var c := Content(d, Sectors(f));
    if off >= |c| then [] else if off + len <= |c| then c[off..off + len] else c[off..]
  }

  /** The file's bytes up to its length. */
  function FileBytes(d: Disk, f: File): seq<byte>
    requires WfDisk(d) && WfFile(f) && InRange(d, Sectors(f)) && 0 <= f.length <= SECTOR * |Sectors(f)|
  {
    Content(d, Sectors(f))[..f.length]
  }

  function Overwrite(c: seq<byte>, off: nat, x: seq<byte>): seq<byte>
    requires off <= |c|
  {
    c[..off] + x + if off + |x| < |c| then c[off + |x|..] else []
  }

  lemma ContentGrows(d: Disk, ss: seq<int>, news: seq<int>)
    requires WfDisk(d) && InRange(d, ss + news)
    ensures InRange(d, ss) && Content(d, ss) <= Content(d, ss + news)
  {
    hide Content;
    assert forall i :: 0 <= i < |ss| ==> (ss + news)[i] == ss[i];
    assert forall i :: 0 <= i < |news| ==> (ss + news)[|ss| + i] == news[i];
    ContentConcat(d, ss, news);
  }

  lemma OverwriteSplice(c: seq<byte>, c1: seq<byte>, len: nat, off: nat, x: seq<byte>)
    requires c <= c1 && len <= |c| && off <= len && off + |x| <= |c1|
    ensures Max(len, off + |x|) <= |c1|
    ensures Splice(c1, off, x)[..Max(len, off + |x|)] == Overwrite(c[..len], off, x)
  {
    var r := Splice(c1, off, x);
    assert c1[..len] == c[..len];
  }

  /** A complete regular write at or before the end is an overwrite of the byte sequence, and
      reading the same place back returns what was written. */
  lemma WriteIsOverwrite(d: Disk, f: File, buff: seq<byte>, off: nat)
    requires Owned(d, f) && CanWrite(d, f, off, |buff|) && Regular(d, f, off, |buff|) && Sized(f)
    requires off <= f.length && |buff| <= Room(d, f, off)
    ensures var (d', f', total) := Write(d, f, buff, off);
            && Owned(d', f') && Sized(f') && total == |buff|
            && FileBytes(d', f') == Overwrite(FileBytes(d, f), off, buff)
            && ReadSlice(d', f', off, |buff|) == buff
  {
    hide Regular, CanWrite, Write, Walk, FreeCount, Content, Splice, SameIdentity, Overwrite;
    OwnedBasics(d, f);
    WriteKeepsSize(d, f, buff, off);
    var news := WriteLaw(d, f, buff, off);
    var (d', f', total) := Write(d, f, buff, off);
    SoundBasics(d, f);
    SoundBasics(d', f');
    hide Sound, Gained;
    var c, c1 := Content(d, Sectors(f)), Content(d, Sectors(f'));
    ContentGrows(d, Sectors(f), news);
    assert buff[..total] == buff;
    OverwriteSplice(c, c1, f.length, off, buff);
    SpliceRead(c1, off, buff);
    if buff == [] {
      SpliceNothing(c1, off);
    }
  }

  lemma SpliceRead(c: seq<byte>, off: nat, x: seq<byte>)
    requires off + |x| <= |c|
    ensures Splice(c, off, x)[off..off + |x|] == x
  {
  }

  /** read stops at the end of the file exactly when the length fills the sectors or the request
      stays short of it; otherwise it returns stale bytes of the last sector. */
  lemma ReadStopsAtEnd(d: Disk, f: File, off: nat, len: nat)
    requires Owned(d, f) && Sized(f) && off <= f.length
    ensures WfDisk(d) && InRange(d, Sectors(f))
    ensures |ReadSlice(d, f, off, len)| == Min(len, f.length - off) <==>
              off + len <= f.length || f.length == SECTOR * |Sectors(f)|
    ensures off + len <= f.length ==> ReadSlice(d, f, off, len) == FileBytes(d, f)[off..off + len]
  {
    OwnedBasics(d, f);
    SoundBasics(d, f);
    hide Content, Walk, Owned, Sound, SecCount;
    if off + len <= f.length {
      SubSlice(Content(d, Sectors(f)), 0, f.length, off, off + len);
    }
  }

  /** No other sector changes: another file's bytes and directory entry are untouched. */
  lemma WriteLeavesOthers(d: Disk, f: File, buff: seq<byte>, off: nat, g: File)
    requires Owned(d, f) && CanWrite(d, f, off, |buff|) && Regular(d, f, off, |buff|)
    requires Owned(d, g) && g.dir != f.dir && g.dir !in Sectors(f) && f.dir !in Sectors(g)
    requires forall s :: s in Sectors(g) ==> s !in Sectors(f)
    ensures var d' := Write(d, f, buff, off).0;
            && Owned(d', g) && Content(d', Sectors(g)) == Content(d, Sectors(g)) && d'.dev[g.dir] == d.dev[g.dir]
  {
    hide Regular, CanWrite, Write, Walk, FreeCount, Content, Used, SecCount, SameIdentity, LoopBytes;
    var news := WriteLaw(d, f, buff, off);
    var (d', f', total) := Write(d, f, buff, off);
    OwnedBasics(d', f');
    NewsForeign(d, d', g, news);
    ContentSame(d, d', Sectors(g));
  }

  /** Newly taken sectors were free, so no live file had them; and it keeps its own. */
  lemma NewsForeign(d: Disk, d': Disk, g: File, news: seq<int>)
    requires Owned(d, g) && WfDisk(d') && Gained(d, d', news)
    ensures Owned(d', g) && g.dir !in news && forall s :: s in Sectors(g) ==> s !in news
  {
    hide Walk, FreeCount, Used, SecCount;
    NewIsFree(d, d', news, g.dir);
    forall s | s in Sectors(g) ensures s !in news {
      NewIsFree(d, d', news, s);
    }
  }

  lemma NewIsFree(d: Disk, d': Disk, news: seq<int>, s: nat)
    requires WfDisk(d) && WfDisk(d') && Gained(d, d', news) && s < MAX_SECTORS && Used(d.vol, s)
    ensures s !in news
  {
    hide FreeCount, Used;
  }

  // ----- persistence of one entry

  function EntryLength(hdr: seq<byte>): int
    requires |hdr| == SECTOR
  {
    SecCount(hdr) * SECTOR - if hdr[EOF_AT] != 0 then SECTOR - hdr[EOF_AT] else 0
  }

  /** TI2Linux: up to the first blank, slashes become dots. */
  function OsName(hdr: seq<byte>): seq<byte>
    requires |hdr| == SECTOR
  {
    OsNameFrom(hdr, 0)
  }

  function OsNameFrom(hdr: seq<byte>, i: nat): seq<byte>
    requires |hdr| == SECTOR && i <= NAME_LEN
    decreases NAME_LEN - i
  {
    if i == NAME_LEN || hdr[i] == 32 then []
    else [if hdr[i] == 47 then 46 else hdr[i]] + OsNameFrom(hdr, i + 1)
  }

  /** readDirEnt: the file an entry describes; the rest of the table keeps what it held. */
  function ReadEntry(blank: File, hdr: seq<byte>): (f: File)
    requires WfFile(blank) && |hdr| == SECTOR
    ensures WfFile(f) && Runs(f) == DecodeChains(hdr, SAVED_CHAINS)
  {
    DecodedFew(hdr, SAVED_CHAINS);
    var cs := DecodeChains(hdr, SAVED_CHAINS);
    blank.(hdr := hdr, osname := OsName(hdr), table := cs + blank.table[|cs|..], count := |cs|,
           length := EntryLength(hdr), dirty := false)
  }

  /** The entry on the device describes the file: its runs when at most 23 are in use, its
      length when the sizes agree. */
  lemma EntryFaithful(d: Disk, f: File, blank: File)
    requires Owned(d, f) && WfFile(blank) && f.hdr == EncodeChains(f.hdr, Runs(f))
    ensures Runs(ReadEntry(blank, f.hdr)) == Runs(f)[..Min(SAVED_CHAINS, f.count)]
    ensures Runs(ReadEntry(blank, f.hdr)) == Runs(f) <==> f.count <= SAVED_CHAINS
    ensures Sized(f) ==> ReadEntry(blank, f.hdr).length == f.length
  {
    hide Walk, Slots, EncodeChains, Used;
    RunsInRange(d, f);
    ChainsRoundTrip(f.hdr, Runs(f));
    if Sized(f) {
      SizeFromEntry(|Sectors(f)|, f.length);
    }
  }

  lemma SizeFromEntry(n: nat, length: int)
    requires 0 <= length <= SECTOR * n < length + SECTOR
    ensures length == n * SECTOR - if length % SECTOR != 0 then SECTOR - length % SECTOR else 0
  {
  }

  lemma RunsInRange(d: Disk, f: File)
    requires Sound(d, f)
    ensures Savable(Runs(f))
  {
    hide Used, Walk;
    forall i | 0 <= i < |Runs(f)| ensures 0 < Runs(f)[i].start <= Runs(f)[i].end < 4096 {
      var c := Runs(f)[i];
      var n := |Walk(Runs(f)[..i])|;
      AtSector(Runs(f), i, c.start, n);
      AtSector(Runs(f), i, c.end, n + (c.end - c.start));
    }
  }
}
