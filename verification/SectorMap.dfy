/** The sector device and its allocation bitmap: values first, then the object that keeps the
    bitmap inside the in-memory volume header. */
module SectorMap {
  import opened Bytes

  const BITMAP_AT: nat := 0x38
  const MAX_SECTORS: nat := 1440       // 0xb4 bytes of bitmap
  const VOL_HDR_SECTOR: nat := 0
  const DIR_HDR_SECTOR: nat := 1
  const FIRST_DATA_SECTOR: nat := 34

  /** vol: the volume header held in memory; dev: the image, sector by sector. */
  datatype Disk = Disk(vol: seq<byte>, dev: seq<seq<byte>>, changed: bool)

  ghost predicate WfDisk(d: Disk) {
    && |d.vol| == SECTOR && 2 <= |d.dev| <= MAX_SECTORS
    && forall s :: 0 <= s < |d.dev| ==> |d.dev[s]| == SECTOR
  }

  const COUNT_AT: nat := 10

  /** The number of sectors as the volume header says it. */
  function HeaderCount(vol: seq<byte>): nat
    requires |vol| == SECTOR
  {
    vol[COUNT_AT] as int * 256 + vol[COUNT_AT + 1]
  }

  // ----- bits in bytes

  function PutBit(b: nat, k: nat, v: bit): nat {
    if k == 0 then b - b % 2 + v else 2 * PutBit(b / 2, k - 1, v) + b % 2
  }

  lemma {:induction false} PutBitBound(b: nat, k: nat, v: bit, n: nat)
    requires k < n && b < Pow2(n)
    ensures PutBit(b, k, v) < Pow2(n)
  {
    var half := Pow2(n - 1);
    assert Pow2(n) == 2 * half;
    assert b / 2 < half && b == 2 * (b / 2) + b % 2;
    if k > 0 {
      PutBitBound(b / 2, k - 1, v, n - 1);
    }
  }

  lemma {:induction false} PutBitTest(b: nat, k: nat, v: bit, j: nat)
    ensures TestBit(PutBit(b, k, v), j) == if j == k then v else TestBit(b, j)
  {
    var c := PutBit(b, k, v);
    if k == 0 {
      assert c % 2 == v && c / 2 == b / 2;
    } else {
      assert c % 2 == b % 2 && c / 2 == PutBit(b / 2, k - 1, v);
      if j > 0 {
        PutBitTest(b / 2, k - 1, v, j - 1);
      }
    }
  }

  // ----- the bitmap

  predicate Used(vol: seq<byte>, s: nat)
    requires |vol| == SECTOR && s < MAX_SECTORS
  {
    TestBit(vol[BITMAP_AT + s / 8], s % 8) == 1
  }

  function Mark1(vol: seq<byte>, s: nat, v: bit): (r: seq<byte>)
    requires |vol| == SECTOR && s < MAX_SECTORS
    ensures |r| == SECTOR
  {
    assert Pow2(8) == 256;
    PutBitBound(vol[BITMAP_AT + s / 8], s % 8, v, 8);
    vol[BITMAP_AT + s / 8 := PutBit(vol[BITMAP_AT + s / 8], s % 8, v)]
  }

  lemma Mark1Used(vol: seq<byte>, s: nat, v: bit, t: nat)
    requires |vol| == SECTOR && s < MAX_SECTORS && t < MAX_SECTORS
    ensures Used(Mark1(vol, s, v), t) == if t == s then v == 1 else Used(vol, t)
  {
    PutBitTest(vol[BITMAP_AT + s / 8], s % 8, v, t % 8);
  }

  /** Mark count sectors from start: the bitmap bytes after alloc (v = 1) or free (v = 0). */
  function Mark(vol: seq<byte>, start: nat, count: nat, v: bit): (r: seq<byte>)
    requires |vol| == SECTOR && start + count <= MAX_SECTORS
    ensures |r| == SECTOR
  {
    if count == 0 then vol else Mark1(Mark(vol, start, count - 1, v), start + count - 1, v)
  }

  lemma {:induction false} MarkUsed(vol: seq<byte>, start: nat, count: nat, v: bit, t: nat)
    requires |vol| == SECTOR && start + count <= MAX_SECTORS && t < MAX_SECTORS
    ensures Used(Mark(vol, start, count, v), t) == if start <= t < start + count then v == 1 else Used(vol, t)
  {
    if count > 0 {
      MarkUsed(vol, start, count - 1, v, t);
      Mark1Used(Mark(vol, start, count - 1, v), start + count - 1, v, t);
    }
  }

  /** Only bitmap bytes are touched: name, geometry and reserved areas stay. */
  lemma {:induction false} MarkKeepsRest(vol: seq<byte>, start: nat, count: nat, v: bit, i: nat)
    requires |vol| == SECTOR && start + count <= MAX_SECTORS && i < SECTOR
    requires i < BITMAP_AT || i >= BITMAP_AT + MAX_SECTORS / 8
    ensures Mark(vol, start, count, v)[i] == vol[i]
  {
    if count > 0 {
      MarkKeepsRest(vol, start, count - 1, v, i);
    }
  }

  lemma MarkKeepsCount(vol: seq<byte>, start: nat, count: nat, v: bit)
    requires |vol| == SECTOR && start + count <= MAX_SECTORS
    ensures HeaderCount(Mark(vol, start, count, v)) == HeaderCount(vol)
  {
    MarkKeepsRest(vol, start, count, v, COUNT_AT);
    MarkKeepsRest(vol, start, count, v, COUNT_AT + 1);
  }

  /** First free sector at or after start. */
  function FirstFree(d: Disk, start: nat): (i: int)
    requires WfDisk(d)
    ensures i == -1 ==> forall s :: start <= s < |d.dev| ==> Used(d.vol, s)
    ensures i != -1 ==> start <= i < |d.dev| && !Used(d.vol, i) && forall s :: start <= s < i ==> Used(d.vol, s)
    decreases |d.dev| - start
  {
    if start >= |d.dev| then -1 else if !Used(d.vol, start) then start else FirstFree(d, start + 1)
  }

  function FreeCount(d: Disk, start: nat): (n: nat)
    requires WfDisk(d)
    decreases |d.dev| - start
  {
    if start >= |d.dev| then 0 else FreeCount(d, start + 1) + if Used(d.vol, start) then 0 else 1
  }

  function Allocate(d: Disk, start: nat, count: nat): (r: Disk)
    requires WfDisk(d) && start + count <= MAX_SECTORS
    ensures WfDisk(r)
  {
    d.(vol := Mark(d.vol, start, count, 1), changed := true)
  }

  function Release(d: Disk, start: nat, count: nat): (r: Disk)
    requires WfDisk(d) && start + count <= MAX_SECTORS
    ensures WfDisk(r)
  {
    d.(vol := Mark(d.vol, start, count, 0), changed := true)
  }

  /** Write data inside one sector. */
  function Patch(d: Disk, sector: nat, offset: nat, data: seq<byte>): (r: Disk)
    requires WfDisk(d) && sector < |d.dev| && offset + |data| <= SECTOR
    ensures WfDisk(r) && |r.dev| == |d.dev|
  {
    var was := d.dev[sector];
    d.(dev := d.dev[sector := was[..offset] + data + was[offset + |data|..]])
  }

  /** Flush the volume header, bitmap included, if it changed. */
  function SyncMap(d: Disk): (r: Disk)
    requires WfDisk(d)
    ensures WfDisk(r)
  {
    if d.changed then d.(dev := d.dev[VOL_HDR_SECTOR := d.vol], changed := false) else d
  }

  class DiskSector {
    const volHdr: array<byte>
    const device: array<seq<byte>>
    const sectorCount: nat
    var bitmapChanged: bool

    ghost predicate Valid()
      reads this, volHdr, device
    {
      sectorCount == device.Length && WfDisk(Model())
    }

    ghost function Model(): Disk
      reads this, volHdr, device
    {
      Disk(volHdr[..], device[..], bitmapChanged)
    }

    constructor (volHdr: array<byte>, device: array<seq<byte>>, changed: bool)
      requires WfDisk(Disk(volHdr[..], device[..], changed))
      ensures Valid() && this.volHdr == volHdr && this.device == device
      ensures Model() == Disk(volHdr[..], device[..], changed)
    {
      this.volHdr, this.device := volHdr, device;
      sectorCount, bitmapChanged := device.Length, changed;
    }

    method IsFree(sector: nat) returns (free: bool)
      requires Valid() && sector < MAX_SECTORS
      ensures free == !Used(Model().vol, sector)
    {
      var byteAt, bitAt := sector / 8, sector % 8;
      free := TestBit(volHdr[BITMAP_AT + byteAt], bitAt) == 0;
    }

    method FindFree(start: nat) returns (i: int)
      requires Valid()
      ensures i == FirstFree(Model(), start)
    {
      i := start;
      while i < sectorCount
        invariant start <= i
        invariant FirstFree(Model(), i) == FirstFree(Model(), start)
      {
        var free := IsFree(i);
        if free {
          return;
        }
        i := i + 1;
      }
      i := -1;
    }

    method SetBits(start: nat, count: nat, v: bit)
      requires Valid() && start + count <= MAX_SECTORS
      modifies this`bitmapChanged, volHdr
      ensures Valid() && Model() == old(Model()).(vol := Mark(old(Model()).vol, start, count, v), changed := true)
    {
      hide PutBit, Pow2;
      ghost var was := volHdr[..];
      for i := start to start + count
        invariant volHdr[..] == Mark(was, start, i - start, v)
      {
        ghost var now := volHdr[..];
        PutBitByte(now[BITMAP_AT + i / 8], i % 8, v);
        volHdr[BITMAP_AT + i / 8] := PutBit(volHdr[BITMAP_AT + i / 8], i % 8, v);
        assert volHdr[..] == Mark1(now, i, v);
      }
      bitmapChanged := true;
    }

    method Alloc(start: nat, count: nat)
      requires Valid() && start + count <= MAX_SECTORS
      modifies this`bitmapChanged, volHdr
      ensures Valid() && Model() == Allocate(old(Model()), start, count)
    {
      SetBits(start, count, 1);
    }

    method Free(start: nat, count: nat)
      requires Valid() && start + count <= MAX_SECTORS
      modifies this`bitmapChanged, volHdr
      ensures Valid() && Model() == Release(old(Model()), start, count)
    {
      SetBits(start, count, 0);
    }

    method Write(sector: nat, data: seq<byte>, offset: nat) returns (n: nat)
      requires Valid() && sector < sectorCount && offset + |data| <= SECTOR
      modifies device
      ensures Valid() && Model() == Patch(old(Model()), sector, offset, data) && n == |data|
    {
      var was := device[sector];
      device[sector] := was[..offset] + data + was[offset + |data|..];
      n := |data|;
    }

    method Sync()
      requires Valid()
      modifies this`bitmapChanged, device
      ensures Valid() && Model() == SyncMap(old(Model()))
    {
      if bitmapChanged {
        device[VOL_HDR_SECTOR] := volHdr[..];
        bitmapChanged := false;
      }
    }
  }

  lemma PutBitByte(b: byte, k: nat, v: bit)
    requires k < 8
    ensures PutBit(b, k, v) < 256
  {
    assert Pow2(8) == 256;
    PutBitBound(b, k, v, 8);
  }
}
