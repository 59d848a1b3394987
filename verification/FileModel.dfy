/** One file as a value: create, read, write, and the laws of write. */
module FileModel {
  import opened Bytes
  import opened SectorMap
  import opened Chains

  /** The fields of a DiskFile. table is the fixed array of runs, count of them in use; leaked
      counts references taken and never given back. */
  datatype File = File(
    inode: nat, osname: seq<byte>, hdr: seq<byte>, table: seq<Chain>, count: nat,
    dir: int, length: int, dirty: bool, unlinked: bool, refs: nat, leaked: nat)

  ghost predicate WfFile(f: File) {
    |f.hdr| == SECTOR && |f.table| == MAX_FILE_CHAINS && f.count <= MAX_FILE_CHAINS
  }

  function Runs(f: File): seq<Chain>
    requires f.count <= |f.table|
  {
    f.table[..f.count]
  }

  function Sectors(f: File): seq<int>
    requires f.count <= |f.table|
  {
    Walk(Runs(f))
  }

  // ----- the position of write

  datatype Cursor = Cursor(chain: nat, sector: int, offset: nat, len: nat, avail: nat, total: nat)

  /** The run that holds sector number q. */
  function RunOf(cs: seq<Chain>, q: nat): (i: nat)
    requires q < |Walk(cs)|
    ensures i < |cs|
  {
    var n := |cs| - 1;
    if q >= |Walk(cs[..n])| then n else RunOf(cs[..n], q)
  }

  lemma {:induction false} RunOfAt(cs: seq<Chain>, q: nat)
    requires q < |Walk(cs)|
    ensures At(cs, RunOf(cs, q), Walk(cs)[q], q)
  {
    var n := |cs| - 1;
    if q < |Walk(cs[..n])| {
      RunOfAt(cs[..n], q);
      var i := RunOf(cs[..n], q);
      assert cs[..n][..i] == cs[..i];
    }
  }

  /** Where write starts: inside the allocated sectors, or past all of them. */
  function Seek(f: File, off: nat, len: nat): Cursor
    requires WfFile(f) && |Sectors(f)| == SecCount(f.hdr)
  {
    var ss := Sectors(f);
    if off < SECTOR * |ss| then
      Cursor(RunOf(Runs(f), off / SECTOR), ss[off / SECTOR], off % SECTOR, len, |ss| - off / SECTOR, 0)
    else
      Cursor(f.count, 0, off - SECTOR * |ss|, len, 0, 0)
  }

  // ----- one turn of the write loop

  /** End of the run before a chain index; no sector follows on the missing one. */
  function LastEnd(f: File, chain: nat): int
    requires chain <= |f.table|
  {
    if chain == 0 then -2 else f.table[chain - 1].end
  }

  /** How many runs the next k sectors, taken first fit, add after a run that ends at end. */
  function NewRuns(d: Disk, end: int, k: nat): (n: nat)
    requires WfDisk(d)
    ensures n <= k
    decreases k
  {
    if k == 0 then 0
    else
      var s := FirstFree(d, FIRST_DATA_SECTOR);
      if s == -1 then 0 else (if end + 1 == s then 0 else 1) + NewRuns(Allocate(d, s, 1), s, k - 1)
  }

  lemma {:induction false} NewRunsSame(d: Disk, d': Disk, end: int, k: nat)
    requires WfDisk(d) && WfDisk(d') && d.vol == d'.vol && |d.dev| == |d'.dev|
    ensures NewRuns(d, end, k) == NewRuns(d', end, k)
    decreases k
  {
    hide Mark, Used, FirstFree;
    if k > 0 {
      FirstFreeSame(d, d', FIRST_DATA_SECTOR);
      var s := FirstFree(d, FIRST_DATA_SECTOR);
      if s != -1 {
        NewRunsSame(Allocate(d, s, 1), Allocate(d', s, 1), s, k - 1);
      }
    }
  }

  /** Sectors that the rest of the request needs beyond those allocated. */
  function Short(c: Cursor): nat {
    var n := (c.offset + c.len + SECTOR - 1) / SECTOR;
    if n <= c.avail then 0 else n - c.avail
  }

  /** The chain index at which the next sector is taken: while allocated sectors remain, write
      will then stand on the last run. */
  function GrowsAt(f: File, c: Cursor): nat {
    if c.avail > 0 && f.count > 0 then f.count - 1 else c.chain
  }

  /** The runs in use after the request. */
  function RunsAfter(d: Disk, f: File, c: Cursor): nat
    requires WfDisk(d) && WfFile(f) && c.chain <= f.count
  {
    f.count + NewRuns(d, LastEnd(f, GrowsAt(f, c)), Short(c))
  }

  ghost predicate Safe(d: Disk, f: File, c: Cursor) {
    && WfDisk(d) && WfFile(f) && c.chain <= f.count
    && (c.len > 0 ==> c.offset <= SECTOR && RunsAfter(d, f, c) <= MAX_FILE_CHAINS)
    && (c.len > 0 && c.avail > 0 ==>
          && Proper(Runs(f)) && InRange(d, Sectors(f)) && c.offset < SECTOR
          && c.avail <= |Sectors(f)| && At(Runs(f), c.chain, c.sector, |Sectors(f)| - c.avail))
  }

  /** The sector follows on, or an entry of the table is left for it. */
  predicate HasRoom(f: File, chain: nat, s: int)
    requires WfFile(f)
  {
    chain <= f.count && ((chain > 0 && f.table[chain - 1].end + 1 == s) || f.count < MAX_FILE_CHAINS)
  }

  /** A new sector joins the run before the current chain index if it follows on, else it
      becomes the run at that index, whatever was there. */
  function Grow(f: File, chain: nat, s: int): (r: (File, nat))
    requires WfFile(f) && HasRoom(f, chain, s)
    ensures WfFile(r.0) && r.1 <= r.0.count
  {
    var f1 := f.(hdr := PutSecCount(f.hdr, (SecCount(f.hdr) + 1) % 0x10000));
    if chain > 0 && f.table[chain - 1].end + 1 == s then
      (f1.(table := f.table[chain - 1 := Chain(f.table[chain - 1].start, s)]), chain)
    else
      (f1.(table := f.table[chain := Chain(s, s)], count := f.count + 1), chain + 1)
  }

  datatype Turn = Full | Next(d: Disk, f: File, c: Cursor)

  lemma RoomForNext(d: Disk, f: File, c: Cursor)
    requires Safe(d, f, c) && c.len > 0 && c.avail == 0 && FirstFree(d, FIRST_DATA_SECTOR) != -1
    ensures HasRoom(f, c.chain, FirstFree(d, FIRST_DATA_SECTOR))
  {
    hide Mark, Used;
    assert Short(c) > 0;
  }

  function NeedSector(d: Disk, f: File, c: Cursor): Turn
    requires Safe(d, f, c) && c.len > 0
  {
    if c.avail > 0 then Next(d, f, c)
    else
      var s := FirstFree(d, FIRST_DATA_SECTOR);
      if s == -1 then Full
      else
        RoomForNext(d, f, c);
        var (f1, chain1) := Grow(f, c.chain, s);
        Next(Allocate(d, s, 1), f1, c.(chain := chain1, sector := s, avail := 1))
  }

  function Chunk(c: Cursor): nat
    requires c.offset <= SECTOR
  {
    if c.offset + c.len > SECTOR then SECTOR - c.offset else c.len
  }

  ghost predicate CanAdvance(f: File, c: Cursor)
    requires WfFile(f)
  {
    && (c.avail > 1 ==> c.chain < f.count)
    && (c.avail > 1 && c.sector + 1 > f.table[c.chain].end ==> c.chain + 1 < f.count)
  }

  /** After a chunk: on to the next sector, and to the next run when this one is used up and
      allocated sectors remain. */
  function Advance(f: File, c: Cursor): (r: Cursor)
    requires WfFile(f) && c.offset <= SECTOR && c.avail > 0 && c.len > 0
    requires CanAdvance(f, c)
  {
    var c1 := Cursor(c.chain, c.sector + 1, 0, c.len - Chunk(c), c.avail - 1, c.total + Chunk(c));
    if c1.len > 0 && c1.avail > 0 && c1.sector > f.table[c1.chain].end then
      c1.(chain := c1.chain + 1, sector := f.table[c1.chain + 1].start)
    else c1
  }

  function WriteTurn(d: Disk, f: File, c: Cursor, buff: seq<byte>): Turn
    requires Safe(d, f, c) && c.len > 0 && |buff| == c.total + c.len
  {
    match NeedSector(d, f, c)
    case Full => Full
    case Next(d1, f1, c1) =>
      TurnInRange(d, f, c);
      Next(Patch(d1, c1.sector, c1.offset, buff[c.total..c.total + Chunk(c1)]), f1, Advance(f1, c1))
  }

  lemma TurnInRange(d: Disk, f: File, c: Cursor)
    requires Safe(d, f, c) && c.len > 0
    ensures var t := NeedSector(d, f, c);
            t.Next? ==>
              && WfDisk(t.d) && WfFile(t.f) && 0 <= t.c.sector < |t.d.dev| == |d.dev|
              && t.c.avail > 0 && t.c.chain <= t.f.count
              && CanAdvance(t.f, t.c)
              && t.c.offset == c.offset && t.c.len == c.len && t.c.total == c.total
  {
    if c.avail > 0 {
      AtSector(Runs(f), c.chain, c.sector, |Sectors(f)| - c.avail);
      if c.avail > 1 {
        AtNext(Runs(f), c.chain, c.sector, |Sectors(f)| - c.avail);
      }
    }
  }

  /** A chunk brings the number of sectors still needed down by the new one, and the runs in use
      afterwards are foreseen as before. */
  lemma TurnRuns(d: Disk, f: File, c: Cursor, buff: seq<byte>)
    requires Safe(d, f, c) && c.len > 0 && |buff| == c.total + c.len
    ensures var t := WriteTurn(d, f, c, buff);
            t.Next? ==>
              && WfDisk(t.d) && WfFile(t.f) && t.c.chain <= t.f.count
              && (if t.c.len > 0 then RunsAfter(t.d, t.f, t.c) else t.f.count) == RunsAfter(d, f, c)
  {
    hide Used, Mark, Walk, SecCount, PutSecCount, FirstFree, NewRuns;
    TurnInRange(d, f, c);
    ShortAfter(c);
    var t := NeedSector(d, f, c);
    if t.Next? {
      var d' := Patch(t.d, t.c.sector, t.c.offset, buff[c.total..c.total + Chunk(t.c)]);
      if c.avail > 0 {
        AdvancedRuns(d, d', f, c);
      } else {
        TakenRuns(d, f, c, d', Advance(t.f, t.c));
      }
    }
  }

  /** Within the allocated sectors. */
  lemma AdvancedRuns(d: Disk, d': Disk, f: File, c: Cursor)
    requires Safe(d, f, c) && c.len > 0 && c.avail > 0 && CanAdvance(f, c)
    requires WfDisk(d') && d'.vol == d.vol && |d'.dev| == |d.dev|
    ensures var c1 := Advance(f, c);
            && c1.chain <= f.count
            && (if c1.len > 0 then RunsAfter(d', f, c1) else f.count) == RunsAfter(d, f, c)
  {
    hide Used, Mark, Walk, SecCount, FirstFree;
    ShortAfter(c);
    NewRunsSame(d, d', LastEnd(f, f.count - 1), Short(c));
    if c.avail == 1 {
      AtLast(Runs(f), c.chain, c.sector, |Sectors(f)| - 1);
    }
  }

  /** At the end of them. */
  lemma TakenRuns(d: Disk, f: File, c: Cursor, d': Disk, c1: Cursor)
    requires Safe(d, f, c) && c.len > 0 && c.avail == 0 && FirstFree(d, FIRST_DATA_SECTOR) != -1
    requires WfDisk(d') && |d'.dev| == |d.dev| && d'.vol == Allocate(d, FirstFree(d, FIRST_DATA_SECTOR), 1).vol
    requires HasRoom(f, c.chain, FirstFree(d, FIRST_DATA_SECTOR))
    requires c1.chain == Grow(f, c.chain, FirstFree(d, FIRST_DATA_SECTOR)).1
    requires c1.offset == 0 && c1.len == c.len - Chunk(c) && c1.avail == 0
    ensures var f1 := Grow(f, c.chain, FirstFree(d, FIRST_DATA_SECTOR)).0;
            (if c1.len > 0 then RunsAfter(d', f1, c1) else f1.count) == RunsAfter(d, f, c)
  {
    hide Used, Mark, SecCount, PutSecCount, FirstFree;
    ShortAfter(c);
    var s := FirstFree(d, FIRST_DATA_SECTOR);
    NewRunsSame(Allocate(d, s, 1), d', s, Short(c) - 1);
  }

  lemma ShortAfter(c: Cursor)
    requires c.offset <= SECTOR && c.len > 0
    ensures var rest := Cursor(0, 0, 0, c.len - Chunk(c), if c.avail > 0 then c.avail - 1 else 0, 0);
            && (c.avail > 0 && rest.len > 0 ==> Short(rest) == Short(c))
            && (c.avail == 0 ==> Short(c) == Short(rest) + 1)
            && (rest.len == 0 ==> Short(rest) == 0 && (c.avail > 0 ==> Short(c) == 0))
  {
  }

  lemma TurnSafe(d: Disk, f: File, c: Cursor, buff: seq<byte>)
    requires Safe(d, f, c) && c.len > 0 && |buff| == c.total + c.len
    ensures var t := WriteTurn(d, f, c, buff);
            t.Next? ==>
              && Safe(t.d, t.f, t.c) && |buff| == t.c.total + t.c.len
              && (t.c.len < c.len || (t.c.len == c.len && t.c.offset < c.offset))
  {
    hide Used, Mark, Walk, SecCount, PutSecCount, NewRuns, FirstFree;
    TurnInRange(d, f, c);
    TurnRuns(d, f, c, buff);
    if c.avail > 1 && c.len > Chunk(c) {
      AtNext(Runs(f), c.chain, c.sector, |Sectors(f)| - c.avail);
    }
  }

  function WriteLoop(d: Disk, f: File, c: Cursor, buff: seq<byte>): (Disk, File, Cursor)
    requires Safe(d, f, c) && |buff| == c.total + c.len
    decreases c.len, c.offset
  {
    if c.len == 0 then (d, f, c)
    else
      TurnSafe(d, f, c, buff);
      match WriteTurn(d, f, c, buff)
      case Full => (d, f, c)
      case Next(d1, f1, c1) => WriteLoop(d1, f1, c1, buff)
  }

  // ----- what the loop does inside the allocated sectors

  /** The file's runs hold distinct used data sectors, as many as its header says. */
  ghost predicate Sound(d: Disk, f: File) {
    && WfDisk(d) && WfFile(f) && Proper(Runs(f)) && SecCount(f.hdr) == |Sectors(f)|
    && Distinct(Sectors(f)) && InRange(d, Sectors(f))
    && forall i :: 0 <= i < |Sectors(f)| ==> FIRST_DATA_SECTOR <= Sectors(f)[i] && Used(d.vol, Sectors(f)[i])
  }

  /** Only these sectors of the device differ, and not the bitmap. */
  ghost predicate OnlyWrites(d: Disk, d': Disk, ss: seq<int>) {
    && |d'.dev| == |d.dev|
    && forall s :: 0 <= s < |d.dev| && s !in ss ==> d'.dev[s] == d.dev[s]
  }

  function Min(a: int, b: int): int { if a <= b then a else b }

  /** Sector number q of the walk is where the cursor stands. */
  ghost predicate Inside(d: Disk, f: File, c: Cursor, q: nat) {
    && Safe(d, f, c) && Sound(d, f) && c.len > 0
    && 0 < c.avail == |Sectors(f)| - q
  }

  lemma InsideTurn(d: Disk, f: File, c: Cursor, q: nat, buff: seq<byte>)
    requires Inside(d, f, c, q) && |buff| == c.total + c.len
    ensures var x := buff[c.total..c.total + Chunk(c)];
            WriteTurn(d, f, c, buff) == Next(Patch(d, Sectors(f)[q], c.offset, x), f, Advance(f, c))
  {
    AtSector(Runs(f), c.chain, c.sector, q);
  }

  lemma PatchKeepsSound(d: Disk, f: File, s: nat, offset: nat, x: seq<byte>)
    requires Sound(d, f) && s < |d.dev| && offset + |x| <= SECTOR && s in Sectors(f)
    ensures Sound(Patch(d, s, offset, x), f) && OnlyWrites(d, Patch(d, s, offset, x), Sectors(f))
  {
  }

  /** In place: the bytes are spliced in and nothing else changes. A write that would run past
      the allocated sectors stops there when the disk is full. */
  lemma {:induction false} InPlace(d: Disk, f: File, c: Cursor, q: nat, buff: seq<byte>)
    requires Inside(d, f, c, q) && |buff| == c.total + c.len
    requires SECTOR * q + c.offset + c.len <= SECTOR * |Sectors(f)| || FirstFree(d, FIRST_DATA_SECTOR) == -1
    ensures var (d', f', c') := WriteLoop(d, f, c, buff);
            && f' == f && Sound(d', f) && OnlyWrites(d, d', Sectors(f)) && d'.vol == d.vol && d'.changed == d.changed
            && c'.total - c.total == Min(c.len, SECTOR * |Sectors(f)| - (SECTOR * q + c.offset))
            && Content(d', Sectors(f)) == Splice(Content(d, Sectors(f)), SECTOR * q + c.offset, buff[c.total..c'.total])
    decreases c.len
  {
    hide Safe, Sound, WriteTurn, WriteLoop, Content, Splice, OnlyWrites, Advance;
    InsideBasics(d, f, c, q);
    var ss := Sectors(f);
    var n := Chunk(c);
    var x := buff[c.total..c.total + n];
    InsideTurn(d, f, c, q, buff);
    LoopTurn(d, f, c, buff);
    var d1, c1 := Patch(d, ss[q], c.offset, x), Advance(f, c);
    PatchKeepsSound(d, f, ss[q], c.offset, x);
    PatchContent(d, ss, q, c.offset, x);
    AdvanceInside(d, f, c, q, x);
    if c1.len == 0 {
      LoopDone(d1, f, c1, buff);
    } else if c1.avail == 0 {
      FirstFreeSame(d, d1, FIRST_DATA_SECTOR);
      LoopFull(d1, f, c1, buff);
    } else {
      FirstFreeSame(d, d1, FIRST_DATA_SECTOR);
      InPlace(d1, f, c1, q + 1, buff);
      var (d2, _, c2) := WriteLoop(d1, f, c1, buff);
      SpliceTwice(Content(d, ss), SECTOR * q + c.offset, x, buff[c1.total..c2.total]);
      assert x + buff[c1.total..c2.total] == buff[c.total..c2.total];
      OnlyWritesTwice(d, d1, d2, ss);
    }
  }

  lemma InsideBasics(d: Disk, f: File, c: Cursor, q: nat)
    requires Inside(d, f, c, q)
    ensures WfDisk(d) && WfFile(f) && c.offset < SECTOR && InRange(d, Sectors(f)) && Distinct(Sectors(f))
    ensures q < |Sectors(f)| && 0 <= Sectors(f)[q] < |d.dev| && 0 < Chunk(c) <= c.len && c.offset + Chunk(c) <= SECTOR
    ensures CanAdvance(f, c)
  {
    TurnInRange(d, f, c);
  }

  lemma LoopTurn(d: Disk, f: File, c: Cursor, buff: seq<byte>)
    requires Safe(d, f, c) && c.len > 0 && |buff| == c.total + c.len
    ensures var t := WriteTurn(d, f, c, buff);
            t.Next? ==>
              && Safe(t.d, t.f, t.c) && |buff| == t.c.total + t.c.len
              && WriteLoop(d, f, c, buff) == WriteLoop(t.d, t.f, t.c, buff)
  {
    hide Safe, WriteTurn;
    TurnSafe(d, f, c, buff);
  }

  lemma LoopDone(d: Disk, f: File, c: Cursor, buff: seq<byte>)
    requires Safe(d, f, c) && c.len == 0 && |buff| == c.total
    ensures WriteLoop(d, f, c, buff) == (d, f, c)
  {
  }

  lemma LoopFull(d: Disk, f: File, c: Cursor, buff: seq<byte>)
    requires Safe(d, f, c) && c.len > 0 && c.avail == 0 && |buff| == c.total + c.len
    requires FirstFree(d, FIRST_DATA_SECTOR) == -1
    ensures WriteLoop(d, f, c, buff) == (d, f, c)
  {
  }

  lemma {:induction false} FirstFreeSame(d: Disk, d': Disk, start: nat)
    requires WfDisk(d) && WfDisk(d') && d.vol == d'.vol && |d.dev| == |d'.dev|
    ensures FirstFree(d, start) == FirstFree(d', start)
    ensures FreeCount(d, start) == FreeCount(d', start)
    decreases |d.dev| - start
  {
    if start < |d.dev| {
      FirstFreeSame(d, d', start + 1);
    }
  }

  lemma AdvanceInside(d: Disk, f: File, c: Cursor, q: nat, x: seq<byte>)
    requires Inside(d, f, c, q) && |x| == Chunk(c)
    requires c.offset + |x| <= SECTOR && Sectors(f)[q] >= 0
    ensures var d1 := Patch(d, Sectors(f)[q], c.offset, x);
            var c1 := Advance(f, c);
            && c1.len == c.len - Chunk(c) && c1.total == c.total + Chunk(c) && c1.avail == c.avail - 1 && c1.offset == 0
            && (c1.len > 0 && c1.avail > 0 ==> Inside(d1, f, c1, q + 1))
            && (c1.len > 0 ==> Chunk(c) == SECTOR - c.offset)
            && (c1.len > 0 && c1.avail == 0 ==> c1.chain + 1 == f.count)
  {
    hide NewRuns, Used, SecCount;
    if c.len > Chunk(c) {
      if c.avail > 1 {
        AtNext(Runs(f), c.chain, c.sector, q);
      } else {
        AtLast(Runs(f), c.chain, c.sector, q);
      }
    }
    AtSector(Runs(f), c.chain, c.sector, q);
    PatchKeepsSound(d, f, Sectors(f)[q], c.offset, x);
    InsideBasics(d, f, c, q);
    AdvancedRuns(d, Patch(d, Sectors(f)[q], c.offset, x), f, c);
  }

  lemma OnlyWritesTwice(d: Disk, d1: Disk, d2: Disk, ss: seq<int>)
    requires OnlyWrites(d, d1, ss) && OnlyWrites(d1, d2, ss)
    ensures OnlyWrites(d, d2, ss)
  {
  }

  // ----- what the loop does past the allocated sectors

  /** The cursor is past all runs and the next chunk needs a new sector. */
  ghost predicate AtEnd(d: Disk, f: File, c: Cursor) {
    Safe(d, f, c) && Sound(d, f) && c.avail == 0 && c.chain == f.count
  }

  /** These sectors, free before, are the ones the bitmap gained. */
  ghost predicate Gained(d: Disk, d': Disk, news: seq<int>)
    requires WfDisk(d) && WfDisk(d')
  {
    && |d'.dev| == |d.dev| && HeaderCount(d'.vol) == HeaderCount(d.vol) && Distinct(news)
    && (forall i :: 0 <= i < |news| ==> FIRST_DATA_SECTOR <= news[i] < |d.dev| && !Used(d.vol, news[i]))
    && (forall t :: 0 <= t < MAX_SECTORS ==> (Used(d'.vol, t) <==> Used(d.vol, t) || t in news))
    && FreeCount(d, FIRST_DATA_SECTOR) == |news| + FreeCount(d', FIRST_DATA_SECTOR)
  }

  /** Everything about a file but its runs and sector count. */
  ghost predicate SameButRuns(f: File, f': File) {
    && f' == f.(hdr := f'.hdr, table := f'.table, count := f'.count)
    && |f.hdr| == |f'.hdr| == SECTOR
    && (forall i :: 0 <= i < SECTOR && i != SEC_COUNT_AT && i != SEC_COUNT_AT + 1 ==> f'.hdr[i] == f.hdr[i])
  }

  lemma {:induction false} FreeCountMark(d: Disk, s: nat, start: nat)
    requires WfDisk(d) && s < |d.dev| && !Used(d.vol, s)
    ensures FreeCount(d, start) == FreeCount(Allocate(d, s, 1), start) + if start <= s then 1 else 0
    decreases |d.dev| - start
  {
    hide Used, Mark;
    if start < |d.dev| {
      FreeCountMark(d, s, start + 1);
      MarkUsed(d.vol, s, 1, 1, start);
    }
  }

  lemma AllocateGains(d: Disk, s: nat)
    requires WfDisk(d) && FIRST_DATA_SECTOR <= s < |d.dev| && !Used(d.vol, s)
    ensures Gained(d, Allocate(d, s, 1), [s])
  {
    hide Used, Mark, FreeCount;
    forall t | 0 <= t < MAX_SECTORS
      ensures Used(Allocate(d, s, 1).vol, t) <==> Used(d.vol, t) || t in [s]
    {
      MarkUsed(d.vol, s, 1, 1, t);
    }
    FreeCountMark(d, s, FIRST_DATA_SECTOR);
    MarkKeepsCount(d.vol, s, 1, 1);
  }

  lemma GainedTwice(d: Disk, d1: Disk, d2: Disk, a: seq<int>, b: seq<int>)
    requires WfDisk(d) && WfDisk(d1) && WfDisk(d2) && Gained(d, d1, a) && Gained(d1, d2, b)
    ensures Gained(d, d2, a + b)
  {
    hide Used, FreeCount;
    forall i, j | 0 <= i < j < |a + b| ensures (a + b)[i] != (a + b)[j] {
      if i < |a| <= j {
        assert (a + b)[i] in a;
      }
    }
  }

  function GrowRuns(cs: seq<Chain>, s: int): seq<Chain> {
    var n := |cs|;
    if n > 0 && cs[n - 1].end + 1 == s then cs[n - 1 := Chain(cs[n - 1].start, s)] else cs + [Chain(s, s)]
  }

  lemma GrowRunsWalk(cs: seq<Chain>, s: int)
    requires Proper(cs)
    ensures var cs' := GrowRuns(cs, s);
            && Proper(cs') && Walk(cs') == Walk(cs) + [s] && |cs| <= |cs'| <= |cs| + 1 && cs' != []
            && cs'[|cs'| - 1].end == s
  {
    if |cs| > 0 && cs[|cs| - 1].end + 1 == s {
      WalkLonger(cs);
    } else {
      WalkNewChain(cs, s);
    }
  }

  lemma LastAt(cs: seq<Chain>)
    requires cs != [] && Proper(cs)
    ensures At(cs, |cs| - 1, cs[|cs| - 1].end, |Walk(cs)| - 1)
  {
  }

  lemma GrowAtEnd(f: File, s: int)
    requires WfFile(f) && HasRoom(f, f.count, s) && Proper(Runs(f)) && SecCount(f.hdr) + 1 < 0x10000
    ensures var (f1, chain1) := Grow(f, f.count, s);
            && WfFile(f1) && Proper(Runs(f1)) && chain1 == f1.count && SameButRuns(f, f1)
            && Sectors(f1) == Sectors(f) + [s] && SecCount(f1.hdr) == SecCount(f.hdr) + 1
            && f1.count > 0 && At(Runs(f1), f1.count - 1, s, |Sectors(f)|)
            && f1.count <= f.count + 1
  {
    hide SecCount, Walk, At, Grow, Proper, SameButRuns;
    GrowFields(f, f.count, s);
    GrowRunsWalk(Runs(f), s);
    LastAt(Runs(Grow(f, f.count, s).0));
  }

  lemma GrowFields(f: File, chain: nat, s: int)
    requires WfFile(f) && HasRoom(f, chain, s)
    ensures var (f1, chain1) := Grow(f, chain, s);
            && SameButRuns(f, f1) && f.count <= f1.count <= f.count + 1
            && f1.table[..chain1] == GrowRuns(f.table[..chain], s)
            && (chain == f.count ==> chain1 == f1.count)
            && (SecCount(f.hdr) + 1 < 0x10000 ==> SecCount(f1.hdr) == SecCount(f.hdr) + 1)
  {
    hide SecCount;
  }

  lemma FewSectors(d: Disk, f: File)
    requires Sound(d, f)
    ensures |Sectors(f)| <= |d.dev|
  {
    Pigeonhole(Sectors(f), |d.dev|);
  }

  lemma {:induction false} Pigeonhole(ss: seq<int>, n: nat)
    requires Distinct(ss) && forall i :: 0 <= i < |ss| ==> 0 <= ss[i] < n
    ensures |ss| <= n
  {
    assert ss != [] ==> 0 <= ss[0] < n;
    if n > 0 {
      if i :| 0 <= i < |ss| && ss[i] == n - 1 {
        var rest := ss[..i] + ss[i + 1..];
        Pigeonhole(rest, n - 1);
      } else {
        Pigeonhole(ss, n - 1);
      }
    }
  }

  lemma GrowSound(d: Disk, f: File, s: int)
    requires Sound(d, f) && HasRoom(f, f.count, s)
    requires FIRST_DATA_SECTOR <= s < |d.dev| && !Used(d.vol, s)
    ensures var f1 := Grow(f, f.count, s).0;
            Sound(Allocate(d, s, 1), f1) && Sectors(f1) == Sectors(f) + [s]
  {
    hide SecCount, Used, Mark, Grow, Walk;
    FewSectors(d, f);
    GrowAtEnd(f, s);
    var f1 := Grow(f, f.count, s).0;
    forall t | 0 <= t < MAX_SECTORS ensures Used(Allocate(d, s, 1).vol, t) <==> Used(d.vol, t) || t == s {
      MarkUsed(d.vol, s, 1, 1, t);
    }
  }

  /** The device after one appending turn. */
  function Appended(d: Disk, s: nat, offset: nat, x: seq<byte>): (d': Disk)
    requires WfDisk(d) && s < |d.dev| && offset + |x| <= SECTOR
  {
    Patch(Allocate(d, s, 1), s, offset, x)
  }

  lemma AppendedGains(d: Disk, s: nat, offset: nat, x: seq<byte>)
    requires WfDisk(d) && FIRST_DATA_SECTOR <= s < |d.dev| && !Used(d.vol, s) && offset + |x| <= SECTOR
    ensures var d2 := Appended(d, s, offset, x);
            WfDisk(d2) && Gained(d, d2, [s]) && OnlyWrites(d, d2, [s]) && d2.changed
  {
    hide Used, Mark, FreeCount;
    var d1 := Allocate(d, s, 1);
    var d2 := Patch(d1, s, offset, x);
    AllocateGains(d, s);
    FirstFreeSame(d1, d2, FIRST_DATA_SECTOR);
  }

  lemma AppendedContent(d: Disk, n: nat, all: seq<int>, s: nat, offset: nat, x: seq<byte>)
    requires WfDisk(d) && InRange(d, all) && Distinct(all) && |all| == n + 1 && all[n] == s
    requires offset + |x| <= SECTOR
    ensures s < |d.dev|
    ensures var d2 := Appended(d, s, offset, x);
            && WfDisk(d2) && InRange(d2, all)
            && Content(d2, all) == Splice(Content(d, all), SECTOR * n + offset, x)
  {
    hide Mark, Content, Splice;
    var d1 := Allocate(d, s, 1);
    ContentSame(d, d1, all);
    PatchContent(d1, all, n, offset, x);
  }

  lemma AppendTurn(d: Disk, f: File, c: Cursor, buff: seq<byte>)
    requires AtEnd(d, f, c) && c.len > 0 && |buff| == c.total + c.len
    requires FirstFree(d, FIRST_DATA_SECTOR) != -1
    ensures c.offset <= SECTOR && HasRoom(f, f.count, FirstFree(d, FIRST_DATA_SECTOR))
    ensures var s := FirstFree(d, FIRST_DATA_SECTOR);
            var x := buff[c.total..c.total + Chunk(c)];
            var d2 := Appended(d, s, c.offset, x);
            var f1 := Grow(f, f.count, s).0;
            var c2 := Cursor(f1.count, s + 1, 0, c.len - |x|, 0, c.total + |x|);
            && WriteTurn(d, f, c, buff) == Next(d2, f1, c2)
            && AtEnd(d2, f1, c2) && SameButRuns(f, f1) && Sectors(f1) == Sectors(f) + [s]
  {
    hide SecCount, Used, Mark, Walk, FreeCount;
    RoomForNext(d, f, c);
    var s := FirstFree(d, FIRST_DATA_SECTOR);
    FewSectors(d, f);
    GrowAtEnd(f, s);
    GrowSound(d, f, s);
    var x := buff[c.total..c.total + Chunk(c)];
    TurnSafe(d, f, c, buff);
    PatchKeepsSound(Allocate(d, s, 1), Grow(f, f.count, s).0, s, c.offset, x);
  }

  lemma SameButRunsTwice(f: File, f1: File, f2: File)
    requires SameButRuns(f, f1) && SameButRuns(f1, f2)
    ensures SameButRuns(f, f2)
  {
  }

  /** What an append leaves behind, given the sectors it took. */
  ghost predicate AppendFacts(d: Disk, f: File, c: Cursor, size: nat, d': Disk, f': File, c': Cursor, news: seq<int>)
    requires Sound(d, f)
  {
    && Sound(d', f') && SameButRuns(f, f') && Sectors(f') == Sectors(f) + news
    && Gained(d, d', news) && OnlyWrites(d, d', news) && InRange(d, Sectors(f'))
    && c'.len <= c.len && c'.total + c'.len == size
    && (c'.len > 0 ==> FirstFree(d', FIRST_DATA_SECTOR) == -1)
    && (c.len == 0 ==> news == [])
    && (c.len > 0 ==> SECTOR * |news| < c.offset + c.len + SECTOR)
    && (c'.len == 0 ==> c.offset + c.len <= SECTOR * |news| || c.len == 0)
    && (news == [] ==> d' == d && c'.total == c.total)
    && (news != [] ==> d'.changed)
    && (news != [] ==> c.total <= c'.total && c.offset + (c'.total - c.total) <= SECTOR * |news|)
    && (news != [] && c'.len > 0 ==> c.offset + (c'.total - c.total) == SECTOR * |news|)
  }

  /** And the bytes: the data lies at its place over what the sectors held. */
  ghost predicate AppendBytes(d: Disk, n: nat, c: Cursor, buff: seq<byte>, d': Disk, ss: seq<int>, c': Cursor)
    requires WfDisk(d) && WfDisk(d') && InRange(d, ss) && InRange(d', ss) && c.total <= c'.total <= |buff|
    requires SECTOR * n + c.offset + (c'.total - c.total) <= SECTOR * |ss|
  {
    Content(d', ss) == Splice(Content(d, ss), SECTOR * n + c.offset, buff[c.total..c'.total])
  }

  ghost predicate AppendDone(d: Disk, f: File, c: Cursor, buff: seq<byte>, d': Disk, f': File, c': Cursor, news: seq<int>)
    requires Sound(d, f) && c.total + c.len == |buff|
  {
    && AppendFacts(d, f, c, |buff|, d', f', c', news)
    && (news != [] ==> AppendBytes(d, |Sectors(f)|, c, buff, d', Sectors(f'), c'))
  }

  lemma SpliceJoin(a: seq<byte>, b: seq<byte>, at: nat, x: seq<byte>, y: seq<byte>)
    requires at + |x| <= |a| && |y| <= |b| && (y == [] || at + |x| == |a|)
    ensures y == [] ==> Splice(a, at, x) + b == Splice(a + b, at, x + y)
    ensures y != [] ==> Splice(Splice(a, at, x) + b, at + |x|, y) == Splice(a + b, at, x + y)
  {
    hide Splice;
    SpliceLeft(a, b, at, x);
    if y == [] {
      assert x + y == x;
    } else {
      SpliceTwice(a + b, at, x, y);
    }
  }

  /** After a first sector was appended the later ones still hold what they held. */
  lemma LaterContent(d: Disk, d2: Disk, ss: seq<int>, s: int, rest: seq<int>)
    requires WfDisk(d) && WfDisk(d2) && OnlyWrites(d, d2, [s]) && s !in rest
    requires InRange(d, ss) && InRange(d, rest)
    ensures InRange(d2, ss) && InRange(d2, ss + rest) && InRange(d, ss + rest)
    ensures Content(d2, ss + rest) == Content(d2, ss) + Content(d, rest)
    ensures Content(d, ss + rest) == Content(d, ss) + Content(d, rest)
  {
    hide Content;
    ContentConcat(d2, ss, rest);
    ContentConcat(d, ss, rest);
    ContentSame(d, d2, rest);
  }

  /** One appended sector and the rest of the append, seen from before both. */
  lemma AppendJoinBytes(d: Disk, d2: Disk, d': Disk, n: nat, first: seq<int>, s: int, rest: seq<int>,
                        c: Cursor, c2: Cursor, c': Cursor, buff: seq<byte>)
    requires WfDisk(d) && WfDisk(d2) && WfDisk(d') && s !in rest && |first| == n + 1
    requires OnlyWrites(d, d2, [s]) && InRange(d, first) && InRange(d, rest)
    requires InRange(d2, first) && InRange(d2, first + rest) && InRange(d', first + rest)
    requires c.total <= c2.total <= c'.total <= |buff| && c2.offset == 0
    requires c.offset + (c2.total - c.total) <= SECTOR && c'.total - c2.total <= SECTOR * |rest|
    requires rest != [] ==> c.offset + (c2.total - c.total) == SECTOR
    requires AppendBytes(d, n, c, buff, d2, first, c2)
    requires rest != [] ==> AppendBytes(d2, n + 1, c2, buff, d', first + rest, c')
    requires rest == [] ==> d' == d2 && c'.total == c2.total
    ensures InRange(d, first + rest)
    ensures AppendBytes(d, n, c, buff, d', first + rest, c')
  {
    LaterContent(d, d2, first, s, rest);
    hide Content, Splice, InRange, OnlyWrites;
    var at := SECTOR * n + c.offset;
    var x, y := buff[c.total..c2.total], buff[c2.total..c'.total];
    SpliceJoin(Content(d, first), Content(d, rest), at, x, y);
    assert x + y == buff[c.total..c'.total];
    if rest == [] {
      assert first + rest == first;
      assert y == [];
    } else if y == [] {
      SpliceNothing(Content(d2, first + rest), SECTOR * (n + 1));
    }
  }

  /** Appending from the end of the allocated sectors: new sectors are taken in order while the
      device has any, and the data lands in them. */
  lemma {:induction false} Append(d: Disk, f: File, c: Cursor, buff: seq<byte>) returns (news: seq<int>)
    requires AtEnd(d, f, c) && |buff| == c.total + c.len
    ensures var (d', f', c') := WriteLoop(d, f, c, buff);
            AppendDone(d, f, c, buff, d', f', c', news)
    decreases c.len, c.offset
  {
    hide Sound, Safe, Content, Splice, WriteTurn, WriteLoop, Grow, Appended, AppendFacts, AppendBytes;
    if c.len == 0 {
      LoopDone(d, f, c, buff);
      news := [];
      NothingAppended(d, f, c, buff);
      return;
    }
    CanGrow(d, f, c);
    if FirstFree(d, FIRST_DATA_SECTOR) == -1 {
      LoopFull(d, f, c, buff);
      news := [];
      NothingAppended(d, f, c, buff);
    } else {
      var s := FirstFree(d, FIRST_DATA_SECTOR);
      AppendTurn(d, f, c, buff);
      LoopTurn(d, f, c, buff);
      var x := buff[c.total..c.total + Chunk(c)];
      var d2, f1 := Appended(d, s, c.offset, x), Grow(f, f.count, s).0;
      var c2 := Cursor(f1.count, s + 1, 0, c.len - |x|, 0, c.total + |x|);
      var rest := Append(d2, f1, c2, buff);
      news := [s] + rest;
      var (d', f', c') := WriteLoop(d2, f1, c2, buff);
      AppendJoin(d, f, c, buff, s, d2, f1, c2, d', f', c', rest);
    }
  }

  lemma CanGrow(d: Disk, f: File, c: Cursor)
    requires AtEnd(d, f, c) && c.len > 0
    ensures WfDisk(d) && WfFile(f) && c.offset <= SECTOR
    ensures FirstFree(d, FIRST_DATA_SECTOR) != -1 ==> HasRoom(f, f.count, FirstFree(d, FIRST_DATA_SECTOR))
    ensures c.offset + Chunk(c) <= SECTOR && Chunk(c) <= c.len
    ensures c.len - Chunk(c) > 0 ==> c.offset + Chunk(c) == SECTOR
  {
    if FirstFree(d, FIRST_DATA_SECTOR) != -1 {
      RoomForNext(d, f, c);
    }
  }

  lemma NothingAppended(d: Disk, f: File, c: Cursor, buff: seq<byte>)
    requires AtEnd(d, f, c) && |buff| == c.total + c.len
    requires c.len == 0 || FirstFree(d, FIRST_DATA_SECTOR) == -1
    ensures AppendDone(d, f, c, buff, d, f, c, [])
  {
    hide Used, FreeCount, Walk, Content;
    assert Sectors(f) + [] == Sectors(f);
  }

  lemma AppendJoin(d: Disk, f: File, c: Cursor, buff: seq<byte>, s: nat, d2: Disk, f1: File, c2: Cursor,
                   d': Disk, f': File, c': Cursor, rest: seq<int>)
    requires AtEnd(d, f, c) && |buff| == c.total + c.len && c.len > 0
    requires s == FirstFree(d, FIRST_DATA_SECTOR)
    requires c.offset <= SECTOR && Sound(d2, f1) && SameButRuns(f, f1) && Sectors(f1) == Sectors(f) + [s]
    requires d2 == Appended(d, s, c.offset, buff[c.total..c.total + Chunk(c)])
    requires c2.offset == 0 && c2.len == c.len - Chunk(c) && c2.total == c.total + Chunk(c)
    requires AppendDone(d2, f1, c2, buff, d', f', c', rest)
    ensures AppendDone(d, f, c, buff, d', f', c', [s] + rest)
  {
    hide Content, Splice, Appended, Used, FreeCount, Walk, Gained, Mark, AppendBytes;
    CanGrow(d, f, c);
    var ss := Sectors(f);
    var x := buff[c.total..c.total + Chunk(c)];
    AppendedGains(d, s, c.offset, x);
    AppendJoinFacts(d, f, c, |buff|, s, d2, f1, c2, d', f', c', rest);
    GainedApart(d, d2, d', s, rest);
    assert (ss + [s])[|ss|] == s;
    AppendedContent(d, |ss|, ss + [s], s, c.offset, x);
    OneAppended(d, |ss|, c, buff, d2, ss + [s], c2);
    assert ss + [s] + rest == Sectors(f');
    AppendJoinBytes(d, d2, d', |ss|, ss + [s], s, rest, c, c2, c', buff);
  }

  lemma OneAppended(d: Disk, n: nat, c: Cursor, buff: seq<byte>, d2: Disk, first: seq<int>, c2: Cursor)
    requires WfDisk(d) && WfDisk(d2) && InRange(d, first) && InRange(d2, first) && |first| == n + 1
    requires c.total <= c2.total <= |buff| && c.offset + (c2.total - c.total) <= SECTOR
    requires Content(d2, first) == Splice(Content(d, first), SECTOR * n + c.offset, buff[c.total..c2.total])
    ensures AppendBytes(d, n, c, buff, d2, first, c2)
  {
  }

  lemma GainedApart(d: Disk, d2: Disk, d': Disk, s: nat, rest: seq<int>)
    requires WfDisk(d) && WfDisk(d2) && WfDisk(d') && Gained(d, d2, [s]) && Gained(d2, d', rest)
    ensures s !in rest && InRange(d, rest)
  {
    hide Used, FreeCount;
    assert s in [s] && 0 <= [s][0] < |d.dev|;
    assert Used(d2.vol, s);
  }

  lemma AppendJoinFacts(d: Disk, f: File, c: Cursor, size: nat, s: nat, d2: Disk, f1: File, c2: Cursor,
                        d': Disk, f': File, c': Cursor, rest: seq<int>)
    requires AtEnd(d, f, c) && size == c.total + c.len && c.len > 0
    requires s == FirstFree(d, FIRST_DATA_SECTOR)
    requires c.offset <= SECTOR && Sound(d2, f1) && SameButRuns(f, f1) && Sectors(f1) == Sectors(f) + [s]
    requires Gained(d, d2, [s]) && OnlyWrites(d, d2, [s]) && d2.changed
    requires c2.offset == 0 && c2.len == c.len - Chunk(c) && c2.total == c.total + Chunk(c)
    requires AppendFacts(d2, f1, c2, size, d', f', c', rest)
    ensures AppendFacts(d, f, c, size, d', f', c', [s] + rest)
  {
    hide Used, FreeCount, Walk, Gained, SameButRuns, Proper;
    GainedTwice(d, d2, d', [s], rest);
    SameButRunsTwice(f, f1, f');
    assert Sectors(f) + [s] + rest == Sectors(f) + ([s] + rest);
  }

  // ----- a write that starts inside and runs past the end

  /** The walk of the runs before the chain index holds a foreign sector x at position m. */
  ghost predicate Broken(d: Disk, f: File, c: Cursor, m: nat, x: int) {
    && Safe(d, f, c) && c.avail == 0 && Proper(f.table[..c.chain])
    && m < |Walk(f.table[..c.chain])| && Walk(f.table[..c.chain])[m] == x
  }

  lemma GrowBroken(f: File, chain: nat, s: int, m: nat, x: int)
    requires WfFile(f) && HasRoom(f, chain, s) && Proper(f.table[..chain])
    requires m < |Walk(f.table[..chain])| && Walk(f.table[..chain])[m] == x
    ensures var (f1, chain1) := Grow(f, chain, s);
            && Proper(f1.table[..chain1]) && m < |Walk(f1.table[..chain1])| && Walk(f1.table[..chain1])[m] == x
  {
    hide SecCount, Walk;
    var (f1, chain1) := Grow(f, chain, s);
    GrowRunsWalk(f.table[..chain], s);
    assert f1.table[..chain1] == GrowRuns(f.table[..chain], s);
  }

  lemma {:induction false} BrokenStays(d: Disk, f: File, c: Cursor, buff: seq<byte>, m: nat, x: int)
    requires Broken(d, f, c, m, x) && |buff| == c.total + c.len
    ensures var f' := WriteLoop(d, f, c, buff).1;
            && WfFile(f') && m < |Sectors(f')| && Sectors(f')[m] == x
    decreases c.len, c.offset
  {
    hide Walk, WriteTurn, WriteLoop, Proper;
    if c.len == 0 {
      LoopDone(d, f, c, buff);
      BrokenWalk(f, c.chain, m, x);
    } else if FirstFree(d, FIRST_DATA_SECTOR) == -1 {
      LoopFull(d, f, c, buff);
      BrokenWalk(f, c.chain, m, x);
    } else {
      BrokenTurn(d, f, c, buff, m, x);
      LoopTurn(d, f, c, buff);
      TurnSafe(d, f, c, buff);
      var t := WriteTurn(d, f, c, buff);
      BrokenStays(t.d, t.f, t.c, buff, m, x);
    }
  }

  lemma BrokenWalk(f: File, chain: nat, m: nat, x: int)
    requires WfFile(f) && chain <= f.count
    requires m < |Walk(f.table[..chain])| && Walk(f.table[..chain])[m] == x
    ensures m < |Sectors(f)| && Sectors(f)[m] == x
  {
    hide Walk;
    WalkPrefix(Runs(f), chain);
    assert Runs(f)[..chain] == f.table[..chain];
  }

  lemma BrokenTurn(d: Disk, f: File, c: Cursor, buff: seq<byte>, m: nat, x: int)
    requires Broken(d, f, c, m, x) && c.len > 0 && |buff| == c.total + c.len
    requires FirstFree(d, FIRST_DATA_SECTOR) != -1
    ensures var t := WriteTurn(d, f, c, buff); t.Next? && Broken(t.d, t.f, t.c, m, x)
  {
    hide Walk, SecCount, Used, Mark, Proper, Grow;
    RoomForNext(d, f, c);
    GrowBroken(f, c.chain, FirstFree(d, FIRST_DATA_SECTOR), m, x);
    TurnSafe(d, f, c, buff);
  }

  /** The first new sector of a straddling write is put where the last run was, or before it. */
  lemma StraddleTurn(d: Disk, f: File, c: Cursor, buff: seq<byte>) returns (m: nat, x: int)
    requires Safe(d, f, c) && Sound(d, f) && c.avail == 0 && c.chain + 1 == f.count && c.len > 0
    requires |buff| == c.total + c.len && FirstFree(d, FIRST_DATA_SECTOR) != -1
    ensures m < |Sectors(f)| && Sectors(f)[m] != x
    ensures var t := WriteTurn(d, f, c, buff); t.Next? && Broken(t.d, t.f, t.c, m, x)
  {
    hide Walk, SecCount, Used, Mark, Grow;
    var s := FirstFree(d, FIRST_DATA_SECTOR);
    RoomForNext(d, f, c);
    TurnSafe(d, f, c, buff);
    m, x := StraddleGrow(f, c.chain, s);
    assert Used(d.vol, Sectors(f)[m]);
  }

  lemma LastRunCounts(cs: seq<Chain>)
    requires Proper(cs) && cs != []
    ensures |Walk(cs[..|cs| - 1])| < |Walk(cs)|
  {
  }

  lemma StraddleGrow(f: File, chain: nat, s: int) returns (m: nat, x: int)
    requires WfFile(f) && chain + 1 == f.count && HasRoom(f, chain, s) && Proper(Runs(f))
    ensures m < |Sectors(f)| && x == s
    ensures var (f1, chain1) := Grow(f, chain, s);
            && Proper(f1.table[..chain1]) && m < |Walk(f1.table[..chain1])| && Walk(f1.table[..chain1])[m] == x
  {
    hide SecCount, Walk;
    var front := f.table[..chain];
    assert Runs(f)[..chain] == front;
    LastRunCounts(Runs(f));
    m, x := |Walk(front)|, s;
    var (f1, chain1) := Grow(f, chain, s);
    GrowRunsWalk(front, s);
    assert f1.table[..chain1] == GrowRuns(front, s);
  }

  /** Straddling loses or displaces the last run: the sectors walked afterwards do not begin
      with those walked before. */
  lemma {:induction false} Straddle(d: Disk, f: File, c: Cursor, q: nat, buff: seq<byte>)
    requires Inside(d, f, c, q) && |buff| == c.total + c.len
    requires SECTOR * q + c.offset + c.len > SECTOR * |Sectors(f)|
    requires FirstFree(d, FIRST_DATA_SECTOR) != -1
    ensures WfFile(WriteLoop(d, f, c, buff).1)
    ensures !(Sectors(f) <= Sectors(WriteLoop(d, f, c, buff).1))
    decreases c.len
  {
    hide Safe, Sound, WriteTurn, WriteLoop, OnlyWrites, Advance, Walk;
    InsideBasics(d, f, c, q);
    var ss := Sectors(f);
    var x := buff[c.total..c.total + Chunk(c)];
    InsideTurn(d, f, c, q, buff);
    LoopTurn(d, f, c, buff);
    var d1, c1 := Patch(d, ss[q], c.offset, x), Advance(f, c);
    PatchKeepsSound(d, f, ss[q], c.offset, x);
    AdvanceInside(d, f, c, q, x);
    FirstFreeSame(d, d1, FIRST_DATA_SECTOR);
    if c1.avail > 0 {
      Straddle(d1, f, c1, q + 1, buff);
    } else {
      StraddleEnd(d1, f, c1, buff);
    }
  }

  lemma StraddleEnd(d: Disk, f: File, c: Cursor, buff: seq<byte>)
    requires Safe(d, f, c) && Sound(d, f) && c.avail == 0 && c.chain + 1 == f.count && c.len > 0
    requires |buff| == c.total + c.len && FirstFree(d, FIRST_DATA_SECTOR) != -1
    ensures WfFile(WriteLoop(d, f, c, buff).1)
    ensures !(Sectors(f) <= Sectors(WriteLoop(d, f, c, buff).1))
  {
    hide Safe, Sound, WriteTurn, WriteLoop, Walk;
    var m, x := StraddleTurn(d, f, c, buff);
    LoopTurn(d, f, c, buff);
    var t := WriteTurn(d, f, c, buff);
    BrokenStays(t.d, t.f, t.c, buff, m, x);
  }

  // ----- write, read, create

  /** Length and end-of-file offset follow the request, then the entry is packed and flushed. */
  function Finish(d: Disk, f: File, end: nat): (r: (Disk, File))
    requires WfDisk(d) && WfFile(f) && 0 <= f.dir < |d.dev|
    ensures WfDisk(r.0) && WfFile(r.1)
  {
    var f1 := if end > f.length then f.(length := end, hdr := f.hdr[EOF_AT := Byte(end)]) else f;
    SyncFile(d, f1.(hdr := EncodeChains(f1.hdr, Runs(f1)), dirty := true))
  }

  function SyncFile(d: Disk, f: File): (r: (Disk, File))
    requires WfDisk(d) && WfFile(f) && 0 <= f.dir < |d.dev|
    ensures WfDisk(r.0) && WfFile(r.1)
  {
    var d1 := if f.dirty then Patch(d, f.dir, 0, f.hdr) else d;
    (SyncMap(d1), f.(dirty := false))
  }

  /** What write asks of its caller: with data to write, no gap of more than one sector (the
      chunk size would turn negative), and no more runs than the table has entries. */
  ghost predicate CanWrite(d: Disk, f: File, off: nat, len: nat) {
    && Sound(d, f) && 0 <= f.dir < |d.dev|
    && (len > 0 ==> off <= SECTOR * (|Sectors(f)| + 1))
    && (len > 0 ==> RunsAfter(d, f, Seek(f, off, len)) <= MAX_FILE_CHAINS)
  }

  lemma SeekSafe(d: Disk, f: File, off: nat, len: nat)
    requires CanWrite(d, f, off, len)
    ensures var c := Seek(f, off, len);
            && Safe(d, f, c)
            && (off < SECTOR * |Sectors(f)| && len > 0 ==>
                  && Inside(d, f, c, off / SECTOR) && SECTOR * (off / SECTOR) + c.offset == off)
            && (off >= SECTOR * |Sectors(f)| ==> AtEnd(d, f, c) && SECTOR * |Sectors(f)| + c.offset == off)
            && c.len == len && c.total == 0
  {
    hide Walk;
    if off < SECTOR * |Sectors(f)| {
      RunOfAt(Runs(f), off / SECTOR);
    }
  }

  function Write(d: Disk, f: File, buff: seq<byte>, off: nat): (Disk, File, nat)
    requires CanWrite(d, f, off, |buff|)
  {
    SeekSafe(d, f, off, |buff|);
    var (d1, f1, c1) := WriteLoop(d, f, Seek(f, off, |buff|), buff);
    LoopKeepsShape(d, f, Seek(f, off, |buff|), buff);
    var (d2, f2) := Finish(d1, f1, off + |buff|);
    (d2, f2, c1.total)
  }

  lemma {:induction false} LoopKeepsShape(d: Disk, f: File, c: Cursor, buff: seq<byte>)
    requires Safe(d, f, c) && |buff| == c.total + c.len
    ensures var (d', f', c') := WriteLoop(d, f, c, buff);
            && WfDisk(d') && |d'.dev| == |d.dev| && SameButRuns(f, f') && WfFile(f') && c.total <= c'.total <= |buff|
    decreases c.len, c.offset
  {
    hide SecCount, Used, Mark, At, Proper, Walk, InRange;
    if c.len > 0 {
      TurnSafe(d, f, c, buff);
      TurnInRange(d, f, c);
      var t := WriteTurn(d, f, c, buff);
      if t.Next? {
        LoopTurn(d, f, c, buff);
        LoopKeepsShape(t.d, t.f, t.c, buff);
      }
    }
  }

  /** The table ends up with exactly the runs that were foreseen. */
  lemma {:induction false} LoopRuns(d: Disk, f: File, c: Cursor, buff: seq<byte>)
    requires Safe(d, f, c) && |buff| == c.total + c.len
    ensures WriteLoop(d, f, c, buff).1.count == if c.len == 0 then f.count else RunsAfter(d, f, c)
    decreases c.len, c.offset
  {
    hide SecCount, Used, Mark, Walk, WriteTurn, WriteLoop, NewRuns, FirstFree;
    if c.len == 0 {
      LoopDone(d, f, c, buff);
    } else {
      TurnSafe(d, f, c, buff);
      TurnRuns(d, f, c, buff);
      LoopTurn(d, f, c, buff);
      var t := WriteTurn(d, f, c, buff);
      if t.Next? {
        LoopRuns(t.d, t.f, t.c, buff);
      } else {
        StoppedRuns(d, f, c, buff);
      }
    }
  }

  lemma StoppedRuns(d: Disk, f: File, c: Cursor, buff: seq<byte>)
    requires Safe(d, f, c) && c.len > 0 && |buff| == c.total + c.len && WriteTurn(d, f, c, buff).Full?
    ensures WriteLoop(d, f, c, buff).1 == f && RunsAfter(d, f, c) == f.count
  {
    hide SecCount, Used, Mark, Walk;
    LoopFull(d, f, c, buff);
  }

  lemma FinishRuns(d: Disk, f: File, end: nat)
    requires WfDisk(d) && WfFile(f) && 0 <= f.dir < |d.dev|
    ensures Finish(d, f, end).1.count == f.count && Finish(d, f, end).1.table == f.table
  {
  }

  lemma WriteRuns(d: Disk, f: File, buff: seq<byte>, off: nat)
    requires CanWrite(d, f, off, |buff|)
    ensures Write(d, f, buff, off).1.count == if buff == [] then f.count else RunsAfter(d, f, Seek(f, off, |buff|))
  {
    hide Finish, WriteLoop, NewRuns, SecCount, Walk, RunsAfter;
    SeekSafe(d, f, off, |buff|);
    var c := Seek(f, off, |buff|);
    LoopKeepsShape(d, f, c, buff);
    LoopRuns(d, f, c, buff);
    var (d1, f1, _) := WriteLoop(d, f, c, buff);
    FinishRuns(d1, f1, off + |buff|);
  }

  /** However many sectors are taken from a free stretch, also when it reaches the end of the
      device, they make one run, or lengthen the run they follow on. */
  lemma {:induction false} StretchIsOneRun(d: Disk, end: int, k: nat)
    requires WfDisk(d) && 0 < k && FirstFree(d, FIRST_DATA_SECTOR) != -1
    requires var s := FirstFree(d, FIRST_DATA_SECTOR); forall t :: s <= t < s + k && t < |d.dev| ==> !Used(d.vol, t)
    ensures NewRuns(d, end, k) == if end + 1 == FirstFree(d, FIRST_DATA_SECTOR) then 0 else 1
    decreases k
  {
    hide Mark, Used, FirstFree;
    var s := FirstFree(d, FIRST_DATA_SECTOR);
    var d1 := Allocate(d, s, 1);
    forall t | 0 <= t < MAX_SECTORS ensures Used(d1.vol, t) <==> Used(d.vol, t) || t == s {
      MarkUsed(d.vol, s, 1, 1, t);
    }
    if k > 1 && s + 1 < |d.dev| {
      assert !Used(d.vol, s + 1);
      StretchIsOneRun(d1, s, k - 1);
    }
  }

  // ----- create, rename, reference counts, removal

  /** A new DiskFile: no sectors, its name in the entry. Only the runs in use are ever read, so
      the table is left as it was allocated. */
  function NewFile(inode: nat, path: seq<byte>, table: seq<Chain>): (f: File)
    requires |table| == MAX_FILE_CHAINS && |path| <= NAME_LEN
    ensures WfFile(f)
  {
    File(inode, path, TiName(path) + seq(SECTOR - NAME_LEN, _ => 0), table, 0, 0, 0, false, false, 0, 0)
  }

  /** Linux2TI: upper case, dots become slashes, blanks fill the ten characters. */
  function TiName(path: seq<byte>): (n: seq<byte>)
    requires |path| <= NAME_LEN
    ensures |n| == NAME_LEN
  {
    seq(|path|, i requires 0 <= i < |path| => TiChar(path[i])) + seq(NAME_LEN - |path|, _ => 32)
  }

  function TiChar(c: byte): byte {
    if c == 46 then 47 else if 97 <= c <= 122 then c - 32 else c
  }

  function PutName(hdr: seq<byte>, path: seq<byte>): (r: seq<byte>)
    requires |hdr| == SECTOR && |path| <= NAME_LEN
    ensures |r| == SECTOR
  {
    TiName(path) + hdr[NAME_LEN..]
  }

  /** setOSName. */
  function Renamed(f: File, path: seq<byte>): (r: File)
    requires WfFile(f) && |path| <= NAME_LEN
    ensures WfFile(r)
  {
    f.(osname := path, hdr := PutName(f.hdr, path), dirty := true)
  }

  /** create: take the first free sector of the whole disk for the entry. */
  function Create(d: Disk, f: File): (r: Option<(Disk, File)>)
    requires WfDisk(d) && WfFile(f)
    ensures r.Some? ==> WfDisk(r.value.0) && WfFile(r.value.1) && |r.value.0.dev| == |d.dev|
  {
    var s := FirstFree(d, 0);
    if s == -1 then None
    else Some(SyncFile(Allocate(d, s, 1), f.(dir := s, refs := f.refs + 1, dirty := true)))
  }

  ghost predicate RunsOnDisk(d: Disk, cs: seq<Chain>) {
    forall i :: 0 <= i < |cs| ==> 0 <= cs[i].start <= cs[i].end < |d.dev|
  }

  /** Free every run in turn. */
  function FreeRuns(d: Disk, cs: seq<Chain>): (r: Disk)
    requires WfDisk(d) && RunsOnDisk(d, cs)
    ensures WfDisk(r) && r.dev == d.dev
  {
    if cs == [] then d
    else
      var c := cs[|cs| - 1];
      Release(FreeRuns(d, cs[..|cs| - 1]), c.start, c.end - c.start + 1)
  }

  /** freeResources of a file nobody holds. */
  function FreeFile(d: Disk, f: File): (r: Disk)
    requires WfDisk(d) && WfFile(f) && RunsOnDisk(d, Runs(f)) && 0 <= f.dir < |d.dev|
    ensures WfDisk(r) && r.dev == d.dev && r.changed
  {
    Release(FreeRuns(d, Runs(f)), f.dir, 1)
  }
}
