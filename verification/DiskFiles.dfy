/** The DiskFile object: its loops and in-place updates, each tied to the file as a value. */
module DiskFiles {
  import opened Bytes
  import opened SectorMap
  import opened Chains
  import opened FileModel
  import opened FileLaws

  class DiskFile {
    const sectorMap: DiskSector
    const firstDataSector: nat := FIRST_DATA_SECTOR
    const inode: nat
    var osname: seq<byte>
    var filehdr: seq<byte>             // the 256 raw bytes of the directory entry
    var chains: seq<Chain>             // embedded array of MAX_FILE_CHAINS
    var chainCount: nat
    var dirSector: int
    var length: int
    var needsWrite: bool
    var unlinked: bool
    var refCount: nat
    ghost var leaked: nat

    ghost function V(): File
      reads this
    {
      File(inode, osname, filehdr, chains, chainCount, dirSector, length, needsWrite, unlinked, refCount, leaked)
    }

    ghost function D(): Disk
      reads sectorMap, sectorMap.volHdr, sectorMap.device
    {
      sectorMap.Model()
    }

    ghost predicate Valid()
      reads this, sectorMap, sectorMap.volHdr, sectorMap.device
    {
      sectorMap.Valid() && WfFile(V())
    }

    constructor (path: seq<byte>, sectorMap: DiskSector, dirSector: int, inode: nat, table: seq<Chain>, dirty: bool)
      requires |table| == MAX_FILE_CHAINS && |path| <= NAME_LEN
      ensures this.sectorMap == sectorMap
      ensures V() == NewFile(inode, path, table).(dir := dirSector, dirty := dirty)
    {
      this.sectorMap, this.inode, osname := sectorMap, inode, path;
      filehdr := TiName(path) + seq(SECTOR - NAME_LEN, _ => 0);
      chains, chainCount, length := table, 0, 0;
      this.dirSector, needsWrite, unlinked, refCount, leaked := dirSector, dirty, false, 0, 0;
    }

    // ----- read

    /** The skip test is >, so a read that starts on a sector boundary first takes nothing from
        the sector before it; the bytes returned are the slice all the same. */
    method Read(buff: array<byte>, off: nat, size: nat) returns (total: nat)
      requires Valid() && Proper(Runs(V())) && InRange(D(), Sectors(V()))
      requires size <= buff.Length && buff != sectorMap.volHdr
      modifies buff
      ensures total == |ReadSlice(D(), V(), off, size)|
      ensures buff[..total] == ReadSlice(D(), V(), off, size)
      ensures buff[total..] == old(buff[total..])
    {
      hide Content, Walk, ReadSoFar;
      ghost var cs, was := Runs(V()), buff[..];
      ghost var c := Content(D(), Sectors(V()));
      total := 0;
      var offset: nat, len: nat := off, size;
      WalkNone(cs);
      NothingRead(c, off, size, buff[..]);
      for i := 0 to chainCount
        invariant ReadSoFar(c, |Walk(cs[..i])|, off, size, offset, len, total, buff[..], was)
      {
        ghost var base := |Walk(cs[..i])|;
        for j := chains[i].start to chains[i].end + 1
          invariant ReadSoFar(c, base + (j - chains[i].start), off, size, offset, len, total, buff[..], was)
        {
          ghost var q := base + (j - chains[i].start);
          AtSector(cs, i, j, q);
          offset, len, total := ReadOne(buff, j, offset, len, total, c, q, off, size, was);
        }
        WalkNext(cs, i);
      }
      assert cs[..chainCount] == cs;
      AllRead(c, |Sectors(V())|, off, size, offset, len, total, buff[..], was);
    }

    /** The inner loop's body. */
    method ReadOne(buff: array<byte>, j: int, offset: nat, len: nat, total: nat,
                   ghost c: seq<byte>, ghost q: nat, ghost off: nat, ghost size: nat, ghost was: seq<byte>)
        returns (offset': nat, len': nat, total': nat)
      requires Valid() && InRange(D(), Sectors(V())) && q < |Sectors(V())| && Sectors(V())[q] == j
      requires size <= buff.Length && buff != sectorMap.volHdr && c == Content(D(), Sectors(V()))
      requires ReadSoFar(c, q, off, size, offset, len, total, buff[..], was)
      modifies buff
      ensures ReadSoFar(c, q + 1, off, size, offset', len', total', buff[..], was)
    {
      hide Content, Walk;
      if offset > SECTOR {
        return offset - SECTOR, len, total;
      }
      var count := if offset + len > SECTOR then SECTOR - offset else len;
      ghost var now := buff[..];
      ghost var sector := D().dev[j];
      ContentAt(D(), Sectors(V()), q);
      ReadStep(c, sector, q, off, size, offset, len, total, count);
      offset', len', total' := CopySector(buff, j, offset, len, total, count);
      ReadMore(c, sector, q, off, size, offset, len, total, count, now, buff[..], was);
    }

    method CopySector(buff: array<byte>, sector: int, offset: nat, len: nat, total: nat, count: nat)
        returns (offset': nat, len': nat, total': nat)
      requires Valid() && 0 <= sector < sectorMap.sectorCount && offset + count <= SECTOR && count <= len
      requires total + count <= buff.Length && buff != sectorMap.volHdr
      modifies buff
      ensures offset' == 0 && len' == len - count && total' == total + count
      ensures buff[..total'] == old(buff[..total]) + D().dev[sector][offset..offset + count]
      ensures buff[total'..] == old(buff[total'..])
    {
      var data := sectorMap.device[sector];
      forall k | 0 <= k < count { buff[total + k] := data[offset + k]; }
      assert buff[total..total + count] == data[offset..offset + count];
      offset', len', total' := 0, len - count, total + count;
    }

    // ----- life cycle

    method IncRefCount()
      modifies this`refCount
      ensures V() == old(V()).(refs := old(V()).refs + 1)
    {
      refCount := refCount + 1;
    }

    method SetOSName(path: seq<byte>)
      requires WfFile(V()) && |path| <= NAME_LEN
      modifies this`osname, this`filehdr, this`needsWrite
      ensures V() == Renamed(old(V()), path)
    {
      osname := path;
      filehdr := TiName(path) + filehdr[NAME_LEN..];
      needsWrite := true;
    }

    method Create() returns (ok: bool)
      requires Valid()
      modifies this`dirSector, this`refCount, this`needsWrite, sectorMap`bitmapChanged, sectorMap.volHdr, sectorMap.device
      ensures Valid()
      ensures match FileModel.Create(old(D()), old(V()))
              case None => !ok && D() == old(D()) && V() == old(V()).(dir := -1)
              case Some(r) => ok && D() == r.0 && V() == r.1
    {
      hide FirstFree, Mark, SecCount, SyncFile;
      dirSector := sectorMap.FindFree(0);
      if dirSector == -1 {
        return false;
      }
      refCount := refCount + 1;
      sectorMap.Alloc(dirSector, 1);
      needsWrite := true;
      Sync();
      ok := true;
    }

    /** Frees nothing while somebody holds the file. */
    method FreeResources()
      requires Valid() && RunsOnDisk(D(), Runs(V())) && 0 <= dirSector < sectorMap.sectorCount
      modifies sectorMap`bitmapChanged, sectorMap.volHdr
      ensures Valid() && D() == if refCount != 0 then old(D()) else FreeFile(old(D()), V())
    {
      if refCount != 0 {
        return;
      }
      hide Mark, Used;
      ghost var d, cs := D(), Runs(V());
      assert cs[..0] == [];
      for chain := 0 to chainCount
        invariant sectorMap.Valid() && RunsOnDisk(d, cs[..chain]) && D() == FreeRuns(d, cs[..chain])
      {
        assert cs[..chain + 1][..chain] == cs[..chain] && cs[chain] == chains[chain];
        sectorMap.Free(chains[chain].start, chains[chain].end - chains[chain].start + 1);
      }
      assert cs[..chainCount] == cs;
      sectorMap.Free(dirSector, 1);
    }

    /** True when the last holder of an unlinked file is gone and its sectors are freed. */
    method Close() returns (gone: bool)
      requires Valid() && RunsOnDisk(D(), Runs(V())) && 0 <= dirSector < sectorMap.sectorCount && refCount > 0
      modifies this`refCount, sectorMap`bitmapChanged, sectorMap.volHdr
      ensures Valid() && gone == (old(refCount) == 1 && unlinked)
      ensures V() == old(V()).(refs := old(V()).refs - 1)
      ensures D() == if gone then FreeFile(old(D()), V()) else old(D())
    {
      hide FreeRuns;
      refCount := refCount - 1;
      if refCount == 0 && unlinked {
        FreeResources();
        return true;
      }
      return false;
    }

    /** True when nobody holds the file and its sectors are freed at once. */
    method Unlink() returns (gone: bool)
      requires Valid() && RunsOnDisk(D(), Runs(V())) && 0 <= dirSector < sectorMap.sectorCount
      modifies this`unlinked, sectorMap`bitmapChanged, sectorMap.volHdr
      ensures Valid() && gone == (refCount == 0)
      ensures V() == if gone then old(V()) else old(V()).(unlinked := true)
      ensures D() == if gone then FreeFile(old(D()), V()) else old(D())
    {
      hide FreeRuns;
      if refCount == 0 {
        FreeResources();
        return true;
      }
      unlinked := true;
      return false;
    }

    /** Fill the object in from its directory sector. */
    method ReadDirEnt()
      requires Valid() && 0 <= dirSector < sectorMap.sectorCount
      modifies this`filehdr, this`osname, this`chains, this`chainCount, this`length, this`needsWrite
      ensures Valid() && V() == ReadEntry(old(V()), D().dev[dirSector])
    {
      filehdr := sectorMap.device[dirSector];
      osname := OsName(filehdr);
      UnpackChains();
      length := SecCount(filehdr) * SECTOR;
      if filehdr[EOF_AT] != 0 {
        length := length - (SECTOR - filehdr[EOF_AT]);
      }
      needsWrite := false;
    }

    /** decodeChain. */
    method UnpackChains()
      requires WfFile(V())
      modifies this`chains, this`chainCount
      ensures WfFile(V()) && Runs(V()) == DecodeChains(filehdr, SAVED_CHAINS)
      ensures chains[chainCount..] == old(chains)[chainCount..]
    {
      hide DecodeOne, DecodeChains;
      ghost var was := chains;
      chainCount := 0;
      NoneDecoded(filehdr);
      for i := 0 to SAVED_CHAINS
        invariant chainCount <= i && |chains| == MAX_FILE_CHAINS
        invariant chains[..chainCount] == DecodeChains(filehdr, i) && chains[chainCount..] == was[chainCount..]
      {
        var b := filehdr[CHAIN_AT + 3 * i..CHAIN_AT + 3 * i + 3];
        NextDecoded(filehdr, i, b);
        if b[0] != 0 || b[1] != 0 || b[2] != 0 {
          var p := DecodeOne(b);
          PutNext(chains, chainCount, Chain(p.0, p.0 + p.1));
          chains := chains[chainCount := Chain(p.0, p.0 + p.1)];
          chainCount := chainCount + 1;
        }
      }
    }

    // ----- write

    /** The two nested loops that look for the sector the offset falls in. */
    method Locate(off: nat, len: nat) returns (chain: nat, sector: int, offset: nat, secCount: nat)
      requires Valid() && Proper(Runs(V())) && |Sectors(V())| == SecCount(filehdr)
      ensures var c := Seek(V(), off, len);
              && chain == c.chain && offset == c.offset && secCount == c.avail && (c.avail > 0 ==> sector == c.sector)
    {
      hide Walk, Seek, SecCount;
      ghost var cs := Runs(V());
      offset, sector := off, 0;
      var available := SecCount(filehdr);
      chain := 0;
      WalkNone(cs);
      while chain < chainCount
        invariant chain <= chainCount
        invariant Seeking(|Walk(cs[..chain])|, |Walk(cs)|, off, offset, available)
      {
        ghost var base := |Walk(cs[..chain])|;
        sector := chains[chain].start;
        WalkNext(cs, chain);
        while sector <= chains[chain].end
          invariant chains[chain].start <= sector <= chains[chain].end + 1
          invariant Seeking(base + (sector - chains[chain].start), |Walk(cs)|, off, offset, available)
        {
          ghost var q := base + (sector - chains[chain].start);
          AtSector(cs, chain, sector, q);
          if offset < SECTOR {
            SeekFound(V(), off, len, chain, sector, q);
            return chain, sector, offset, available;
          }
          offset := offset - SECTOR;
          available := available - 1;
          sector := sector + 1;
        }
        chain := chain + 1;
      }
      assert cs[..chainCount] == cs;
      SeekPast(V(), off, len);
      secCount := available;
    }

    /** The allocation branch of the write loop. */
    method NewSector(chain: nat) returns (sector: int, chain': nat)
      requires Valid() && HasRoomOnDisk(D(), V(), chain)
      modifies this`filehdr, this`chains, this`chainCount, sectorMap`bitmapChanged, sectorMap.volHdr
      ensures Valid() && sector == FirstFree(old(D()), FIRST_DATA_SECTOR)
      ensures sector == -1 ==> D() == old(D()) && V() == old(V())
      ensures sector != -1 ==> D() == Allocate(old(D()), sector, 1) && HasRoom(old(V()), chain, sector) && (V(), chain') == Grow(old(V()), chain, sector)
    {
      hide FirstFree, Mark, SecCount, PutSecCount;
      chain' := chain;
      sector := sectorMap.FindFree(firstDataSector);
      if sector == -1 {
        return;
      }
      sectorMap.Alloc(sector, 1);
      filehdr := PutSecCount(filehdr, (SecCount(filehdr) + 1) % 0x10000);
      if chain > 0 && chains[chain - 1].end + 1 == sector {
        chains := chains[chain - 1 := Chain(chains[chain - 1].start, sector)];
      } else {
        chains := chains[chain := Chain(sector, sector)];
        chainCount := chainCount + 1;
        chain' := chain + 1;
      }
    }

    method Sync()
      requires Valid() && 0 <= dirSector < sectorMap.sectorCount
      modifies this`needsWrite, sectorMap`bitmapChanged, sectorMap.device
      ensures Valid() && (D(), V()) == SyncFile(old(D()), old(V()))
    {
      hide SecCount, Used;
      if needsWrite {
        var n := sectorMap.Write(dirSector, filehdr, 0);
        needsWrite := false;
      }
      sectorMap.Sync();
    }

    method FinishWrite(newLength: nat)
      requires Valid() && 0 <= dirSector < sectorMap.sectorCount
      modifies this, sectorMap`bitmapChanged, sectorMap.device
      ensures Valid() && (D(), V()) == Finish(old(D()), old(V()), newLength)
    {
      hide Slots, SyncFile;
      if newLength > length {
        length := newLength;
        filehdr := filehdr[EOF_AT := Byte(newLength)];
      }
      PackChains();
      needsWrite := true;
      Sync();
    }

    /** encodeChain: slot by slot over the first 23 of the entry. */
    method PackChains()
      requires WfFile(V())
      modifies this`filehdr
      ensures filehdr == EncodeChains(old(filehdr), Runs(V()))
    {
      hide Saved, EncodeOne, Walk;
      ghost var was, cs := filehdr, Runs(V());
      for i := 0 to SAVED_CHAINS
        invariant |filehdr| == SECTOR && cs == Runs(V())
        invariant filehdr == was[..CHAIN_AT] + Slots(cs, i) + was[CHAIN_AT + 3 * i..]
      {
        var b := if i < chainCount then EncodeOne(chains[i].start % 0x10000, (chains[i].end - chains[i].start) % 0x10000)
                 else [0, 0, 0];
        SavedIs(V(), i);
        PutSlot(was, Slots(cs, i), b, i);
        filehdr := filehdr[..CHAIN_AT + 3 * i] + b + filehdr[CHAIN_AT + 3 * i + 3..];
      }
    }

    /** The sector to write to: the current one, or a new one; false when the disk is full. */
    method TakeSector(chain: nat, sector: int, secCount: nat, ghost c: Cursor)
        returns (more: bool, chain': nat, sector': int, secCount': nat)
      requires Valid() && Safe(D(), V(), c) && c.len > 0 && Mirrors(c, chain, sector, c.offset, c.len, secCount, c.total)
      modifies this`filehdr, this`chains, this`chainCount, sectorMap`bitmapChanged, sectorMap.volHdr
      ensures Valid()
      ensures var n := NeedSector(old(D()), old(V()), c);
              && more == n.Next?
              && (!more ==> D() == old(D()) && V() == old(V()) && chain' == chain && sector' == sector && secCount' == secCount)
              && (more ==> D() == n.d && V() == n.f && Mirrors(n.c, chain', sector', c.offset, c.len, secCount', c.total))
    {
      TurnRoom(D(), V(), c);
      hide Safe, SecCount, Mark, FirstFree, Grow;
      more, chain', sector', secCount' := true, chain, sector, secCount;
      if secCount == 0 {
        var s, ch := NewSector(chain);
        if s == -1 {
          return false, chain, sector, secCount;
        }
        sector', chain', secCount' := s, ch, 1;
      }
    }

    /** The body of the write loop; false when the disk is full. */
    method Turn(buff: seq<byte>, chain: nat, sector: int, offset: nat, len: nat, secCount: nat, total: nat, ghost c: Cursor)
        returns (more: bool, chain': nat, sector': int, offset': nat, len': nat, secCount': nat, total': nat)
      requires Valid() && Safe(D(), V(), c) && len > 0 && |buff| == total + len
      requires Mirrors(c, chain, sector, offset, len, secCount, total)
      modifies this`filehdr, this`chains, this`chainCount, sectorMap`bitmapChanged, sectorMap.volHdr, sectorMap.device
      ensures Valid()
      ensures var t := WriteTurn(old(D()), old(V()), c, buff);
              && more == t.Next?
              && (!more ==> D() == old(D()) && V() == old(V()))
              && (!more ==> Mirrors(c, chain', sector', offset', len', secCount', total'))
              && (more ==> D() == t.d && V() == t.f && Mirrors(t.c, chain', sector', offset', len', secCount', total'))
    {
      TurnInRange(D(), V(), c);
      TurnRoom(D(), V(), c);
      ghost var n := NeedSector(D(), V(), c);
      chain', sector', offset', len', secCount', total' := chain, sector, offset, len, secCount, total;
      more, chain', sector', secCount' := TakeSector(chain, sector, secCount, c);
      if !more {
        return;
      }
      hide Safe, NeedSector, Mirrors, Advance, CanAdvance;
      chain', sector', offset', len', secCount', total' := Deliver(buff, chain', sector', offset, len, secCount', total, n.c);
    }

    /** Write one chunk and step on. */
    method Deliver(buff: seq<byte>, chain: nat, sector: int, offset: nat, len: nat, secCount: nat, total: nat, ghost c: Cursor)
        returns (chain': nat, sector': int, offset': nat, len': nat, secCount': nat, total': nat)
      requires Valid() && c.len > 0 && |buff| == c.total + c.len && Mirrors(c, chain, sector, offset, len, secCount, total)
      requires c.avail > 0 && c.offset <= SECTOR && 0 <= c.sector < sectorMap.sectorCount && CanAdvance(V(), c)
      modifies sectorMap.device
      ensures Valid() && V() == old(V())
      ensures D() == Patch(old(D()), c.sector, c.offset, buff[c.total..c.total + Chunk(c)])
      ensures Mirrors(Advance(V(), c), chain', sector', offset', len', secCount', total')
    {
      chain' := chain;
      var count := if offset + len > SECTOR then SECTOR - offset else len;
      var wrote := sectorMap.Write(sector, buff[total..total + count], offset);
      total' := total + wrote;
      offset', len' := 0, len - count;
      sector', secCount' := sector + 1, secCount - 1;
      if len' > 0 && secCount' > 0 && sector' > chains[chain'].end {
        chain' := chain' + 1;
        sector' := chains[chain'].start;
      }
    }

    method Write(buff: seq<byte>, off: nat) returns (total: nat)
      requires Valid() && CanWrite(D(), V(), off, |buff|)
      modifies this, sectorMap`bitmapChanged, sectorMap.volHdr, sectorMap.device
      ensures Valid()
      ensures (D(), V(), total) == FileModel.Write(old(D()), old(V()), buff, off)
    {
      hide Safe, Seek, WriteLoop, Finish, Walk, Sound, CanWrite, FileModel.Write, SecCount, WfDisk, Proper, WfFile,
        Mirrors;
      WritePlan(D(), V(), buff, off);
      ghost var c := Seek(V(), off, |buff|);
      var newLength := off + |buff|;
      var chain, sector, offset, secCount := Locate(off, |buff|);
      MirrorsLocated(c, chain, sector, offset, |buff|, secCount);
      total := WriteAll(buff, chain, sector, offset, secCount, c);
      FinishWrite(newLength);
    }

    /** The write loop. */
    method WriteAll(buff: seq<byte>, chain0: nat, sector0: int, offset0: nat, secCount0: nat, ghost c0: Cursor)
        returns (total: nat)
      requires Valid() && Safe(D(), V(), c0) && Mirrors(c0, chain0, sector0, offset0, |buff|, secCount0, 0)
      modifies this`filehdr, this`chains, this`chainCount, sectorMap`bitmapChanged, sectorMap.volHdr, sectorMap.device
      ensures Valid()
      ensures var (d1, f1, c1) := WriteLoop(old(D()), old(V()), c0, buff);
              D() == d1 && V() == f1 && total == c1.total
    {
      ghost var d0, f0, c := D(), V(), c0;
      hide Safe, WriteLoop, WriteTurn, Walk, SecCount;
      var chain, sector, offset, secCount := chain0, sector0, offset0, secCount0;
      total := 0;
      var len: nat := |buff|;
      while len > 0
        invariant Valid() && Safe(D(), V(), c) && |buff| == c.total + c.len
        invariant Mirrors(c, chain, sector, offset, len, secCount, total)
        invariant WriteLoop(D(), V(), c, buff) == WriteLoop(d0, f0, c0, buff)
        decreases len, offset
      {
        LoopTurn(D(), V(), c, buff);
        TurnSafe(D(), V(), c, buff);
        ghost var t := WriteTurn(D(), V(), c, buff);
        var more;
        more, chain, sector, offset, len, secCount, total := Turn(buff, chain, sector, offset, len, secCount, total, c);
        if !more {
          StoppedFull(D(), V(), c, buff);
          return;
        }
        c := t.c;
      }
      LoopDone(D(), V(), c, buff);
    }
  }

  lemma NoneDecoded(hdr: seq<byte>)
    requires |hdr| == SECTOR
    ensures DecodeChains(hdr, 0) == []
  {
  }

  lemma NextDecoded(hdr: seq<byte>, i: nat, b: seq<byte>)
    requires |hdr| == SECTOR && i < SAVED_CHAINS && b == hdr[CHAIN_AT + 3 * i..CHAIN_AT + 3 * i + 3]
    ensures DecodeChains(hdr, i + 1)
            == DecodeChains(hdr, i) + if b[0] != 0 || b[1] != 0 || b[2] != 0 then [Chain(DecodeOne(b).0, DecodeOne(b).0 + DecodeOne(b).1)]
                                      else []
  {
    hide DecodeOne;
    assert b == [b[0], b[1], b[2]] && Slot(hdr, i) == b;
  }

  lemma PutNext(table: seq<Chain>, n: nat, c: Chain)
    requires n < |table|
    ensures table[n := c][..n + 1] == table[..n] + [c] && table[n := c][n + 1..] == table[n..][1..]
    ensures table[n..][1..] == table[n + 1..]
  {
  }

  ghost predicate Mirrors(c: Cursor, chain: nat, sector: int, offset: nat, len: nat, secCount: nat, total: nat) {
    && c.chain == chain && (c.avail > 0 ==> c.sector == sector)
    && c.offset == offset && c.len == len && c.avail == secCount && c.total == total
  }

  lemma WritePlan(d: Disk, f: File, buff: seq<byte>, off: nat)
    requires CanWrite(d, f, off, |buff|)
    ensures WfDisk(d) && WfFile(f) && Proper(Runs(f)) && |Sectors(f)| == SecCount(f.hdr)
    ensures var c := Seek(f, off, |buff|);
            && Safe(d, f, c) && c.total == 0 && c.len == |buff|
            && var (d1, f1, c1) := WriteLoop(d, f, c, buff);
               && WfDisk(d1) && WfFile(f1) && 0 <= f1.dir < |d1.dev|
               && FileModel.Write(d, f, buff, off) == (Finish(d1, f1, off + |buff|).0, Finish(d1, f1, off + |buff|).1, c1.total)
  {
    SeekReady(d, f, off, |buff|);
    SoundProper(d, f);
    WriteIs(d, f, buff, off);
  }

  lemma MirrorsLocated(c: Cursor, chain: nat, sector: int, offset: nat, len: nat, secCount: nat)
    requires c.total == 0 && c.len == len && chain == c.chain && offset == c.offset && secCount == c.avail
    requires c.avail > 0 ==> sector == c.sector
    ensures Mirrors(c, chain, sector, offset, len, secCount, 0)
  {
  }

  lemma StoppedFull(d: Disk, f: File, c: Cursor, buff: seq<byte>)
    requires Safe(d, f, c) && c.len > 0 && |buff| == c.total + c.len && WriteTurn(d, f, c, buff).Full?
    ensures WriteLoop(d, f, c, buff) == (d, f, c)
  {
    hide Safe, WriteTurn;
  }

  /** Where the search of write is before sector number k. */
  ghost predicate Seeking(k: nat, n: nat, off: nat, offset: nat, available: int) {
    off >= SECTOR * k && offset == off - SECTOR * k && available == n - k
  }

  lemma SeekFound(f: File, off: nat, len: nat, chain: nat, sector: int, q: nat)
    requires WfFile(f) && |Sectors(f)| == SecCount(f.hdr) && At(Runs(f), chain, sector, q)
    requires off >= SECTOR * q && off - SECTOR * q < SECTOR && q <= |Sectors(f)|
    ensures Seek(f, off, len) == Cursor(chain, sector, off - SECTOR * q, len, |Sectors(f)| - q, 0)
  {
    hide Walk, SecCount;
    AtSector(Runs(f), chain, sector, q);
    assert off / SECTOR == q;
    RunOfAt(Runs(f), q);
    AtUnique(Runs(f), chain, RunOf(Runs(f), q), sector, q);
  }

  lemma AtUnique(cs: seq<Chain>, i: nat, j: nat, sector: int, q: nat)
    requires At(cs, i, sector, q) && At(cs, j, sector, q)
    ensures i == j
  {
    if i < j {
      AtOrder(cs, i, j, sector, q);
    } else if j < i {
      AtOrder(cs, j, i, sector, q);
    }
  }

  lemma AtOrder(cs: seq<Chain>, i: nat, j: nat, sector: int, q: nat)
    requires At(cs, i, sector, q) && i < j < |cs|
    ensures q < |Walk(cs[..j])|
  {
    hide Walk;
    WalkNext(cs, i);
    WalkPrefix(cs[..j], i + 1);
    assert cs[..j][..i + 1] == cs[..i + 1];
  }

  lemma SeekPast(f: File, off: nat, len: nat)
    requires WfFile(f) && |Sectors(f)| == SecCount(f.hdr) && off >= SECTOR * |Sectors(f)|
    ensures Seek(f, off, len) == Cursor(f.count, 0, off - SECTOR * |Sectors(f)|, len, 0, 0)
  {
  }

  lemma PutSlot(was: seq<byte>, s: seq<byte>, b: seq<byte>, i: nat)
    requires |was| == SECTOR && i < SAVED_CHAINS && |s| == 3 * i && |b| == 3
    ensures var h := was[..CHAIN_AT] + s + was[CHAIN_AT + 3 * i..];
            && |h| == SECTOR
            && h[..CHAIN_AT + 3 * i] + b + h[CHAIN_AT + 3 * i + 3..]
               == was[..CHAIN_AT] + (s + b) + was[CHAIN_AT + 3 * (i + 1)..]
  {
  }

  lemma SavedIs(f: File, i: nat)
    requires WfFile(f) && i < SAVED_CHAINS
    ensures Saved(Runs(f), i) == if i < f.count then EncodeOne(f.table[i].start % 0x10000, (f.table[i].end - f.table[i].start) % 0x10000)
                                 else [0, 0, 0]
  {
  }

  lemma TurnRoom(d: Disk, f: File, c: Cursor)
    requires Safe(d, f, c) && c.len > 0
    ensures c.offset <= SECTOR && (c.avail == 0 ==> HasRoomOnDisk(d, f, c.chain))
  {
    if c.avail == 0 && FirstFree(d, FIRST_DATA_SECTOR) != -1 {
      RoomForNext(d, f, c);
    }
  }

  /** The next free sector, if there is one, has its place in the table. */
  ghost predicate HasRoomOnDisk(d: Disk, f: File, chain: nat)
    requires WfDisk(d) && WfFile(f)
  {
    chain <= f.count && (FirstFree(d, FIRST_DATA_SECTOR) == -1 || HasRoom(f, chain, FirstFree(d, FIRST_DATA_SECTOR)))
  }

  lemma SoundProper(d: Disk, f: File)
    requires Sound(d, f)
    ensures Proper(Runs(f)) && SecCount(f.hdr) == |Sectors(f)|
  {
  }

  /** Where the read loop is before sector number k of the walk. */
  ghost predicate Reading(k: nat, off: nat, size: nat, offset: nat, len: nat, total: nat) {
    && len == size - total && total <= size
    && (if off >= SECTOR * k then offset == off - SECTOR * k && total == 0
        else offset == 0 && total == Min(size, SECTOR * k - off))
  }

  ghost predicate ReadSoFar(c: seq<byte>, k: nat, off: nat, size: nat, offset: nat, len: nat, total: nat,
                            buff: seq<byte>, was: seq<byte>) {
    && Reading(k, off, size, offset, len, total)
    && |buff| == |was| >= size && buff[total..] == was[total..]
    && (total > 0 ==> off + total <= |c| && buff[..total] == c[off..off + total])
  }

  lemma NothingRead(c: seq<byte>, off: nat, size: nat, buff: seq<byte>)
    requires size <= |buff|
    ensures ReadSoFar(c, 0, off, size, off, size, 0, buff, buff)
  {
  }

  lemma ReadMore(c: seq<byte>, sector: seq<byte>, k: nat, off: nat, size: nat, offset: nat, len: nat, total: nat, count: nat,
                 buff: seq<byte>, buff': seq<byte>, was: seq<byte>)
    requires ReadSoFar(c, k, off, size, offset, len, total, buff, was)
    requires offset + count <= |sector| && count <= len
    requires Reading(k + 1, off, size, 0, len - count, total + count)
    requires count > 0 ==> off + total + count <= |c|
    requires count > 0 ==> sector[offset..offset + count] == c[off + total..off + total + count]
    requires |buff'| == |buff| && total + count <= |buff|
    requires buff'[..total + count] == buff[..total] + sector[offset..offset + count]
    requires buff'[total + count..] == buff[total + count..]
    ensures ReadSoFar(c, k + 1, off, size, 0, len - count, total + count, buff', was)
  {
    assert buff[total + count..] == buff[total..][count..] == was[total..][count..] == was[total + count..];
    if count > 0 && total > 0 {
      assert c[off..off + total] + c[off + total..off + total + count] == c[off..off + total + count];
    }
  }

  lemma AllRead(c: seq<byte>, n: nat, off: nat, size: nat, offset: nat, len: nat, total: nat, buff: seq<byte>, was: seq<byte>)
    requires ReadSoFar(c, n, off, size, offset, len, total, buff, was) && |c| == SECTOR * n
    ensures var r := if off >= |c| then [] else if off + size <= |c| then c[off..off + size] else c[off..];
            total == |r| && buff[..total] == r && buff[total..] == was[total..]
  {
  }

  lemma WalkNone(cs: seq<Chain>)
    ensures Walk(cs[..0]) == []
  {
  }

  lemma {:induction false} ContentAt(d: Disk, ss: seq<int>, k: nat)
    requires WfDisk(d) && InRange(d, ss) && k < |ss|
    ensures Content(d, ss)[SECTOR * k..SECTOR * k + SECTOR] == d.dev[ss[k]]
  {
    var n := |ss| - 1;
    if k < n {
      ContentAt(d, ss[..n], k);
      assert Content(d, ss)[SECTOR * k..SECTOR * k + SECTOR] == Content(d, ss[..n])[SECTOR * k..SECTOR * k + SECTOR];
    }
  }

  lemma SliceInside(c: seq<byte>, at: nat, sector: seq<byte>, offset: nat, count: nat)
    requires at + |sector| <= |c| && c[at..at + |sector|] == sector && offset + count <= |sector|
    ensures sector[offset..offset + count] == c[at + offset..at + offset + count]
  {
    var whole, x, y := c[at..at + |sector|], sector[offset..offset + count], c[at + offset..at + offset + count];
    forall k | 0 <= k < count ensures x[k] == y[k] {
      assert whole[offset + k] == c[at + (offset + k)];
    }
  }

  /** One sector's share of the slice. */
  lemma ReadStep(c: seq<byte>, sector: seq<byte>, k: nat, off: nat, size: nat, offset: nat, len: nat, total: nat, count: nat)
    requires Reading(k, off, size, offset, len, total) && offset <= SECTOR && |sector| == SECTOR
    requires SECTOR * k + SECTOR <= |c| && c[SECTOR * k..SECTOR * k + SECTOR] == sector
    requires count == if offset + len > SECTOR then SECTOR - offset else len
    ensures offset + count <= SECTOR && count <= len && Reading(k + 1, off, size, 0, len - count, total + count)
    ensures count > 0 ==> off + total + count <= |c|
    ensures count > 0 ==> sector[offset..offset + count] == c[off + total..off + total + count]
  {
    if count > 0 {
      assert off + total == SECTOR * k + offset;
      SliceInside(c, SECTOR * k, sector, offset, count);
    }
  }
}
