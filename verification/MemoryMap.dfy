/** The memory map of the TI-99/4A: tables, bytes and words, and cartridge banks. */
module MemoryMap {
  import opened Bytes
  import opened Cpu

  const BANKS: nat := 64

  /** What an entry of the tables stands for. Port: a device behind the MMIO region. */
  datatype Leaf = ConsoleRom | Expansion(base: nat) | DeviceRom | LowerCart | UpperCart | BankCart(bank: nat) | ScratchPad | Port(n: nat)

  datatype Entry = Entry(mask: nat, bits: nat, submap: seq<Entry>, leaf: Leaf)

  function Page(leaf: Leaf): Entry { Entry(0x1fff, 0, [], leaf) }

  function MapMmio(): seq<Entry> {
    [Entry(0xff, 0, [], ScratchPad), Entry(0xff, 0, [], Port(1)), Entry(3, 0, [], Port(2)), Entry(3, 0, [], Port(3)),
     Entry(3, 0, [], Port(4)), Entry(3, 0, [], Port(5)), Entry(3, 0, [], Port(6)), Entry(3, 0, [], Port(7))]
  }

  function MapCart(): seq<Entry> { [Entry(0xfff, 0, [], LowerCart), Entry(0xfff, 0, [], UpperCart)] }

  /** mapMain, with the cartridge's entry as bankSelect has left it. */
  function MapMain(bank: Option<nat>): seq<Entry> {
    [Page(ConsoleRom), Page(Expansion(0)), Page(DeviceRom),
     if bank.Some? then Page(BankCart(bank.value)) else Entry(0x1fff, 12, MapCart(), LowerCart),
     Entry(0x1fff, 10, MapMmio(), ScratchPad), Page(Expansion(0x2000)), Page(Expansion(0x4000)), Page(Expansion(0x6000))]
  }

  function Shr(a: nat, bits: nat): nat { QuotientNat(a, Pow2(bits)); a / Pow2(bits) }

  lemma QuotientNat(a: nat, d: nat)
    requires d > 0
    ensures a / d >= 0
  {
    var q := a / d;
    assert a == q * d + a % d;
    MulOrder(q, 0, d);
  }

  /** The rest of memMapEntry's loop from entry m on, with the steps it takes. */
  function Walk(m: Entry, addr: nat): (r: (Entry, nat))
    decreases m
  {
    if m.submap == [] then (m, 0)
    else
      var a := addr % (m.mask + 1);
      if Shr(a, m.bits) >= |m.submap| then (m, 0)
      else var (l, n) := Walk(m.submap[Shr(a, m.bits)], a); (l, n + 1)
  }

  function EntryOf(bank: Option<nat>, addr: word): Entry {
    Walk(MapMain(bank)[addr / 0x2000], addr).0
  }

  lemma SmallShifts()
    ensures Pow2(12) == 0x1000 && Pow2(10) == 0x400
  {
    assert Pow2(6) == 64;
    assert Pow2(10) == 16 * Pow2(6);
    assert Pow2(12) == 4 * Pow2(10);
  }

  function LeafOf(bank: Option<nat>, addr: word): Leaf {
    var p := addr / 0x2000;
    if p == 0 then ConsoleRom else if p == 1 then Expansion(0) else if p == 2 then DeviceRom
    else if p == 3 then (if bank.Some? then BankCart(bank.value) else if addr < 0x7000 then LowerCart else UpperCart)
    else if p == 4 then (if addr < 0x8400 then ScratchPad else Port((addr - 0x8000) / 0x400))
    else Expansion((p - 4) * 0x2000)
  }

  function Span(leaf: Leaf): (n: nat)
    ensures n > 0
  {
    match leaf
    case LowerCart => 0x1000 case UpperCart => 0x1000 case ScratchPad => 0x100
    case Port(n) => if n == 1 then 0x100 else 4
    case _ => 0x2000
  }

  /** Every address reaches a leaf in at most one step below the main table, inside the tables, and
      its offset lies inside what the leaf stands for. */
  lemma EveryAddressHasALeaf(bank: Option<nat>, addr: word)
    ensures var (m, n) := Walk(MapMain(bank)[addr / 0x2000], addr);
            && m.submap == [] && n <= 1 && m.leaf == LeafOf(bank, addr) && m.mask + 1 == Span(m.leaf)
    ensures EntryOf(bank, addr).leaf == LeafOf(bank, addr) && EntryOf(bank, addr).mask + 1 == Span(LeafOf(bank, addr))
  {
    SmallShifts();
    hide Pow2;
    var p := addr / 0x2000;
    if p == 3 && bank == None {
      CartLeaf(addr);
    } else if p == 4 {
      MmioLeaf(addr);
    }
  }

  lemma CartLeaf(addr: word)
    requires 0x6000 <= addr < 0x8000
    ensures Walk(MapMain(None)[3], addr) == (Entry(0xfff, 0, [], if addr < 0x7000 then LowerCart else UpperCart), 1)
  {
    SmallShifts();
    hide Pow2;
    var a := addr % 0x2000;
    assert a == addr - 0x6000;
    assert Walk(MapCart()[a / 0x1000], a) == (MapCart()[a / 0x1000], 0);
  }

  lemma MmioLeaf(addr: word)
    requires 0x8000 <= addr < 0xA000
    ensures var (m, n) := Walk(Entry(0x1fff, 10, MapMmio(), ScratchPad), addr);
            && n == 1 && m.submap == [] && m.mask + 1 == Span(m.leaf)
            && m.leaf == if addr < 0x8400 then ScratchPad else Port((addr - 0x8000) / 0x400)
  {
    SmallShifts();
    hide Pow2;
    var a := addr % 0x2000;
    assert a == addr - 0x8000;
    assert Walk(MapMmio()[a / 0x400], a) == (MapMmio()[a / 0x400], 0);
  }

  // ----- the bus

  datatype Bus = Bus(console: seq<byte>, carts: seq<seq<byte>>, mini: Option<seq<byte>>, ram: seq<byte>, pad: seq<byte>, bank: Option<nat>)

  ghost predicate WfBus(s: Bus) {
    && |s.console| == 0x2000 && |s.carts| == BANKS && (forall b :: 0 <= b < BANKS ==> |s.carts[b]| == 0x2000)
    && (s.mini.Some? ==> |s.mini.value| == 0x1000) && |s.ram| == 0x8000 && |s.pad| == 0x100
    && (s.bank.Some? ==> s.bank.value < BANKS)
  }

  /** The byte at an address, where there is memory and not a device behind it. */
  function ByteAt(s: Bus, addr: word): Option<byte>
    requires WfBus(s)
  {
    var leaf := LeafOf(s.bank, addr);
    var o := addr % Span(leaf);
    match leaf
    case ConsoleRom => Some(s.console[o])
    case Expansion(base) => Some(s.ram[base + o])
    case DeviceRom => None
    case LowerCart => Some(s.carts[0][o])
    case UpperCart => Some(if s.mini.Some? then s.mini.value[o] else s.carts[0][0x1000 + o])
    case BankCart(bank) => Some(s.carts[bank][o])
    case ScratchPad => Some(s.pad[o])
    case Port(n) => None
  }

  function Even(addr: word): word { addr - addr % 2 }

  /** memRead of a word: rounded down to a word boundary, high byte first. */
  function WordFrom(s: Bus, addr: word): Option<word>
    requires WfBus(s)
  {
    match ByteAt(s, Even(addr))
    case None => None
    case Some(h) => (match ByteAt(s, Even(addr) + 1) case Some(l) => Some(h as int * 256 + l) case None => None)
  }

  function BankOf(o: nat): nat { o % 0x80 / 2 }

  /** memWrite of one byte. None: the emulator stops. Writes to ROM and devices change nothing
      here. */
  function PutByte(s: Bus, addr: word, v: byte): (r: Option<Bus>)
    requires WfBus(s)
    ensures r.Some? ==> WfBus(r.value)
  {
    var leaf := LeafOf(s.bank, addr);
    var o := addr % Span(leaf);
    match leaf
    case ConsoleRom => Some(s)
    case Expansion(base) => Some(s.(ram := s.ram[base + o := v]))
    case DeviceRom => Some(s)
    case LowerCart => Some(s.(bank := Some(BankOf(o))))
    case UpperCart => if s.mini.Some? then Some(s.(mini := Some(s.mini.value[o := v]))) else None
    case BankCart(bank) => Some(s.(bank := Some(BankOf(o))))
    case ScratchPad => Some(s.(pad := s.pad[o := v]))
    case Port(n) => Some(s)
  }

  /** memWrite of a word. A bank select sees the address as it is. */
  function PutWord(s: Bus, addr: word, v: word): (r: Option<Bus>)
    requires WfBus(s)
    ensures r.Some? ==> WfBus(r.value)
  {
    if IsSelect(s, addr) then PutByte(s, addr, 0)
    else match PutByte(s, Even(addr), v / 256)
         case None => None
         case Some(t) => PutByte(t, Even(addr) + 1, v % 256)
  }

  ghost predicate IsRam(addr: word) { 0x2000 <= addr < 0x4000 || addr >= 0xA000 }

  ghost predicate IsPad(addr: word) { 0x8000 <= addr < 0x8400 }

  /** One storage cell: the same address, or four-fold mirrors in the scratch pad. */
  ghost predicate SameCell(a: word, b: word) {
    a == b || (IsPad(a) && IsPad(b) && a % 0x100 == b % 0x100)
  }

  predicate IsSelect(s: Bus, addr: word) {
    0x6000 <= addr < 0x7000 || (s.bank.Some? && 0x6000 <= addr < 0x8000)
  }

  lemma RamIndex(a: word)
    requires IsRam(a)
    ensures LeafOf(None, a) == Expansion(if a < 0x4000 then 0 else a / 0x2000 * 0x2000 - 0x8000)
    ensures forall bank :: LeafOf(bank, a) == LeafOf(None, a)
  {
  }

  /** RAM and scratch pad are a byte store: a write changes the cell it names, with its mirrors,
      and no other, whatever the write hits. */
  lemma ByteStore(s: Bus, a: word, b: word, v: byte)
    requires WfBus(s) && (IsRam(a) || IsPad(a)) && PutByte(s, b, v).Some?
    ensures ByteAt(PutByte(s, b, v).value, a)
            == if (IsRam(b) || IsPad(b)) && SameCell(a, b) then Some(v) else ByteAt(s, a)
  {
    if IsRam(a) {
      RamIndex(a);
    }
    if IsRam(b) {
      RamIndex(b);
    }
    if IsRam(a) && IsRam(b) && a != b {
      RamCellsDiffer(a, b);
    }
  }

  function RamCell(a: word): int { (if a < 0x4000 then 0 else a / 0x2000 * 0x2000 - 0x8000) + a % 0x2000 }

  lemma RamCellsDiffer(a: word, b: word)
    requires IsRam(a) && IsRam(b) && a != b
    ensures RamCell(a) != RamCell(b) && 0 <= RamCell(a) < 0x8000
  {
    assert a == a / 0x2000 * 0x2000 + a % 0x2000 && b == b / 0x2000 * 0x2000 + b % 0x2000;
  }

  /** Words are big-endian over the same cells: what is written is read back, from either of its
      two addresses, and as its two bytes, and no other cell changes. */
  lemma WordStore(s: Bus, a: word, v: word)
    requires WfBus(s) && (IsRam(a) || IsPad(a))
    ensures PutWord(s, a, v).Some?
    ensures var t := PutWord(s, a, v).value;
            && WordFrom(t, Even(a)) == Some(v) && WordFrom(t, Even(a) + 1) == Some(v)
            && ByteAt(t, Even(a)) == Some(v / 256) && ByteAt(t, Even(a) + 1) == Some(v % 256)
            && forall b: word :: (IsRam(b) || IsPad(b)) && !SameCell(b, Even(a)) && !SameCell(b, Even(a) + 1) ==>
                 ByteAt(t, b) == ByteAt(s, b)
  {
    hide ByteAt, PutByte, LeafOf, SameCell, IsRam, IsPad;
    var e := Even(a);
    Neighbours(a);
    RamAccepts(s, e, v / 256);
    var u := PutByte(s, e, v / 256).value;
    RamAccepts(u, e + 1, v % 256);
    ByteStore(s, e, e, v / 256);
    ByteStore(u, e, e + 1, v % 256);
    ByteStore(u, e + 1, e + 1, v % 256);
    forall b: word | (IsRam(b) || IsPad(b)) && !SameCell(b, e) && !SameCell(b, e + 1)
      ensures ByteAt(PutWord(s, a, v).value, b) == ByteAt(s, b)
    {
      ByteStore(s, b, e, v / 256);
      ByteStore(u, b, e + 1, v % 256);
    }
  }

  lemma Neighbours(a: word)
    requires IsRam(a) || IsPad(a)
    ensures var e := Even(a);
            && (IsRam(e) || IsPad(e)) && e + 1 < 0x10000 && (IsRam(e + 1) || IsPad(e + 1)) && !SameCell(e, e + 1)
            && SameCell(e, e) && SameCell(e + 1, e + 1) && Even(e) == e && Even(e + 1) == e
            && forall s: Bus :: !IsSelect(s, a)
  {
  }

  lemma RamAccepts(s: Bus, a: word, v: byte)
    requires WfBus(s) && (IsRam(a) || IsPad(a))
    ensures PutByte(s, a, v).Some?
  {
    if IsRam(a) {
      RamIndex(a);
    }
  }

  // ----- runs of writes

  datatype Access = Access(addr: word, value: word, isByte: bool)

  function Apply(s: Bus, x: Access): (r: Option<Bus>)
    requires WfBus(s)
    ensures r.Some? ==> WfBus(r.value)
  {
    if x.isByte then PutByte(s, x.addr, x.value % 256) else PutWord(s, x.addr, x.value)
  }

  function ApplyAll(s: Bus, xs: seq<Access>): (r: Option<Bus>)
    requires WfBus(s)
    ensures r.Some? ==> WfBus(r.value)
  {
    if xs == [] then Some(s)
    else match ApplyAll(s, xs[..|xs| - 1])
         case None => None
         case Some(t) => Apply(t, xs[|xs| - 1])
  }

  /** The bank the run of writes selects last, from bank on. */
  function LastBank(bank: Option<nat>, xs: seq<Access>): Option<nat> {
    if xs == [] then bank
    else
      var before := LastBank(bank, xs[..|xs| - 1]);
      var a := xs[|xs| - 1].addr;
      if 0x6000 <= a < 0x7000 || (before.Some? && 0x6000 <= a < 0x8000) then Some(a / 2 % BANKS) else before
  }

  lemma NoSelect(s: Bus, a: word, v: byte)
    requires WfBus(s) && !IsSelect(s, a) && PutByte(s, a, v).Some?
    ensures var t := PutByte(s, a, v).value; t.bank == s.bank && t.console == s.console && t.carts == s.carts
  {
  }

  lemma Selects(s: Bus, a: word, v: byte)
    requires WfBus(s) && IsSelect(s, a)
    ensures PutByte(s, a, v) == Some(s.(bank := Some(a / 2 % BANKS)))
  {
    BankBits(a);
  }

  lemma BankBits(a: word)
    ensures BankOf(a % 0x1000) == a / 2 % BANKS == BankOf(a % 0x2000)
  {
    LowBits(a);
    HalfLow(a);
  }

  lemma LowBits(a: word)
    ensures a % 0x1000 % 0x80 == a % 0x80 && a % 0x2000 % 0x80 == a % 0x80
  {
  }

  lemma HalfLow(a: word)
    ensures a % 0x80 / 2 == a / 2 % 64
  {
  }

  lemma ApplyBank(s: Bus, x: Access)
    requires WfBus(s) && Apply(s, x).Some?
    ensures var t := Apply(s, x).value;
            && t.console == s.console && t.carts == s.carts
            && t.bank == if IsSelect(s, x.addr) then Some(x.addr / 2 % BANKS) else s.bank
  {
    hide PutByte;
    if IsSelect(s, x.addr) {
      Selects(s, x.addr, x.value % 256);
      Selects(s, x.addr, 0);
    } else if x.isByte {
      NoSelect(s, x.addr, x.value % 256);
    } else {
      SameHalf(s, x.addr);
      NoSelect(s, Even(x.addr), x.value / 256);
      var u := PutByte(s, Even(x.addr), x.value / 256).value;
      NoSelect(u, Even(x.addr) + 1, x.value % 256);
    }
  }

  lemma SameHalf(s: Bus, a: word)
    requires !IsSelect(s, a)
    ensures Even(a) + 1 < 0x10000
    ensures forall t: Bus :: t.bank == s.bank ==> !IsSelect(t, Even(a)) && !IsSelect(t, Even(a) + 1)
  {
  }

  /** After any run of writes the ROMs are as they were, and once a bank has been selected the
      whole cartridge space reads from the bank selected last. */
  lemma {:induction false} BanksFollowSelects(s: Bus, xs: seq<Access>)
    requires WfBus(s) && ApplyAll(s, xs).Some?
    ensures var t := ApplyAll(s, xs).value;
            && t.console == s.console && t.carts == s.carts && t.bank == LastBank(s.bank, xs)
            && (t.bank.Some? ==> forall a: word :: 0x6000 <= a < 0x8000 ==> ByteAt(t, a) == Some(s.carts[t.bank.value][a - 0x6000]))
  {
    hide Apply;
    if xs != [] {
      var front := xs[..|xs| - 1];
      BanksFollowSelects(s, front);
      ApplyBank(ApplyAll(s, front).value, xs[|xs| - 1]);
    }
  }

  // ----- the object

  class MemoryBus {
    const mapMain: array<Entry>
    const ram: array<byte>
    const scratch: array<byte>
    const romConsole: seq<byte>
    const romCartridge: seq<seq<byte>>
    const mmapRegion: Option<array<byte>>
    ghost var bank: Option<nat>

    ghost function Repr(): set<object> {
      {mapMain as object, ram as object, scratch as object} + (if mmapRegion.Some? then {mmapRegion.value as object} else {})
    }

    ghost function S(): Bus
      reads this, Repr()
    {
      Bus(romConsole, romCartridge, if mmapRegion.Some? then Some(mmapRegion.value[..]) else None, ram[..], scratch[..], bank)
    }

    ghost predicate Valid()
      reads this, Repr()
    {
      && WfBus(S()) && mapMain[..] == MapMain(bank) && ram != scratch
      && (mmapRegion.Some? ==> mmapRegion.value != ram && mmapRegion.value != scratch)
    }

    method MemMapEntry(address: word) returns (m: Entry)
      requires Valid()
      ensures m == EntryOf(bank, address)
    {
      EveryAddressHasALeaf(bank, address);
      SmallShifts();
      hide Pow2;
      var addr: nat := address;
      m := mapMain[addr / 0x2000];
      ghost var whole := Walk(m, addr);
      ghost var taken := 0;
      while m.submap != []
        invariant taken <= 1 && Walk(m, addr).0 == whole.0 && Walk(m, addr).1 + taken == whole.1
        invariant taken == 1 ==> m.submap == []
        invariant taken == 0 ==> m == MapMain(bank)[address / 0x2000] && addr == address
        decreases 1 - taken
      {
        addr := addr % (m.mask + 1);
        FirstStep(bank, address);
        m := m.submap[Shr(addr, m.bits)];
        taken := taken + 1;
      }
    }

    /** memRead of a byte; None where a device answers or nothing does. */
    method ReadByte(addr: word) returns (v: Option<byte>)
      requires Valid()
      ensures v == ByteAt(S(), addr)
    {
      EveryAddressHasALeaf(bank, addr);
      var p := MemMapEntry(addr);
      hide EntryOf, LeafOf, Walk, MapMain;
      var o := addr % (p.mask + 1);
      match p.leaf
      case ConsoleRom => v := Some(romConsole[o]);
      case Expansion(base) => v := Some(ram[base + o]);
      case LowerCart => v := Some(romCartridge[0][o]);
      case UpperCart => v := Some(if mmapRegion.Some? then mmapRegion.value[o] else romCartridge[0][0x1000 + o]);
      case BankCart(b) => v := Some(romCartridge[b][o]);
      case ScratchPad => v := Some(scratch[o]);
      case _ => v := None;
    }

    /** memWrite of a byte; false when the emulator stops. */
    method WriteByte(addr: word, v: byte) returns (ok: bool)
      requires Valid()
      modifies this`bank, Repr()
      ensures Valid() && ok == PutByte(old(S()), addr, v).Some?
      ensures S() == if ok then PutByte(old(S()), addr, v).value else old(S())
    {
      hide EntryOf, Walk, MapMain, BankOf;
      EveryAddressHasALeaf(bank, addr);
      var p := MemMapEntry(addr);
      var o := addr % (p.mask + 1);
      ghost var was := S();
      ok := true;
      match p.leaf
      case Expansion(base) =>
        ram[base + o] := v;
        assert S().ram == was.ram[base + o := v];
      case LowerCart => SelectBank(o);
      case BankCart(b) => SelectBank(o);
      case UpperCart =>
        if mmapRegion.None? {
          return false;
        }
        mmapRegion.value[o] := v;
        assert S().mini.value == was.mini.value[o := v];
      case ScratchPad =>
        scratch[o] := v;
        assert S().pad == was.pad[o := v];
      case _ =>
    }

    /** memRead of a word. */
    method ReadWord(addr: word) returns (v: Option<word>)
      requires Valid()
      ensures v == WordFrom(S(), addr)
    {
      hide EntryOf, LeafOf, Walk, MapMain, WordFrom;
      EveryAddressHasALeaf(bank, addr);
      WordIs(S(), addr);
      var p := MemMapEntry(addr);
      var o := addr % (p.mask + 1);
      o := o - o % 2;
      match p.leaf
      case ConsoleRom => v := Some(romConsole[o] as int * 256 + romConsole[o + 1]);
      case Expansion(base) => v := Some(ram[base + o] as int * 256 + ram[base + o + 1]);
      case LowerCart => v := Some(romCartridge[0][o] as int * 256 + romCartridge[0][o + 1]);
      case UpperCart =>
        v := Some(if mmapRegion.Some? then mmapRegion.value[o] as int * 256 + mmapRegion.value[o + 1]
                  else romCartridge[0][0x1000 + o] as int * 256 + romCartridge[0][0x1000 + o + 1]);
      case BankCart(b) => v := Some(romCartridge[b][o] as int * 256 + romCartridge[b][o + 1]);
      case ScratchPad => v := Some(scratch[o] as int * 256 + scratch[o + 1]);
      case _ => v := None;
    }

    /** memWrite of a word; false when the emulator stops. */
    method WriteWord(addr: word, v: word) returns (ok: bool)
      requires Valid()
      modifies this`bank, Repr()
      ensures Valid() && ok == PutWord(old(S()), addr, v).Some?
      ensures S() == if ok then PutWord(old(S()), addr, v).value else old(S())
    {
      hide EntryOf, LeafOf, Walk, MapMain, BankOf, IsSelect, Even;
      EveryAddressHasALeaf(bank, addr);
      SamePage(bank, addr);
      WordIs(S(), addr);
      SelectPage(S(), addr);
      var p := MemMapEntry(addr);
      var o := addr % (p.mask + 1);
      var e := o - o % 2;
      ghost var was := S();
      ok := true;
      match p.leaf
      case Expansion(base) =>
        ram[base + e], ram[base + e + 1] := v / 256, v % 256;
        assert S().ram == was.ram[base + e := v / 256][base + e + 1 := v % 256];
      case LowerCart => SelectBank(o);
      case BankCart(b) => SelectBank(o);
      case UpperCart =>
        if mmapRegion.None? {
          return false;
        }
        mmapRegion.value[e], mmapRegion.value[e + 1] := v / 256, v % 256;
        assert S().mini.value == was.mini.value[e := v / 256][e + 1 := v % 256];
      case ScratchPad =>
        scratch[e], scratch[e + 1] := v / 256, v % 256;
        assert S().pad == was.pad[e := v / 256][e + 1 := v % 256];
      case _ =>
    }

    /** bankSelect: the cartridge's entry becomes one flat page of the bank. */
    method SelectBank(o: nat)
      requires Valid()
      modifies this`bank, mapMain
      ensures Valid() && S() == old(S()).(bank := Some(BankOf(o)))
    {
      mapMain[3] := Page(BankCart(BankOf(o)));
      bank := Some(BankOf(o));
    }
  }

  lemma EvenIn4(addr: word)
    ensures Even(addr) % 4 == addr % 4 - addr % 4 % 2 && (Even(addr) + 1) % 4 == addr % 4 - addr % 4 % 2 + 1
    ensures Even(addr) / 4 == addr / 4 == (Even(addr) + 1) / 4
  {
  }

  lemma EvenIn256(addr: word)
    ensures Even(addr) % 0x100 == addr % 0x100 - addr % 0x100 % 2 && (Even(addr) + 1) % 0x100 == addr % 0x100 - addr % 0x100 % 2 + 1
    ensures Even(addr) / 0x100 == addr / 0x100 == (Even(addr) + 1) / 0x100
  {
  }

  lemma EvenIn4K(addr: word)
    ensures Even(addr) % 0x1000 == addr % 0x1000 - addr % 0x1000 % 2 && (Even(addr) + 1) % 0x1000 == addr % 0x1000 - addr % 0x1000 % 2 + 1
    ensures Even(addr) / 0x1000 == addr / 0x1000 == (Even(addr) + 1) / 0x1000
  {
  }

  lemma EvenIn8K(addr: word)
    ensures Even(addr) % 0x2000 == addr % 0x2000 - addr % 0x2000 % 2 && (Even(addr) + 1) % 0x2000 == addr % 0x2000 - addr % 0x2000 % 2 + 1
    ensures Even(addr) / 0x2000 == addr / 0x2000 == (Even(addr) + 1) / 0x2000
  {
  }

  /** Both bytes of a word lie behind the same leaf, side by side. */
  lemma SamePage(bank: Option<nat>, addr: word)
    ensures var leaf := LeafOf(bank, addr);
            var o := addr % Span(leaf);
            && Even(addr) + 1 < 0x10000 && LeafOf(bank, Even(addr)) == leaf && LeafOf(bank, Even(addr) + 1) == leaf
            && Even(addr) % Span(leaf) == o - o % 2 && (Even(addr) + 1) % Span(leaf) == o - o % 2 + 1
  {
    EvenIn8K(addr);
    EvenIn4K(addr);
    EvenIn256(addr);
    EvenIn4(addr);
    SameLeaf(bank, addr);
    hide Even, LeafOf;
  }

  lemma SameLeaf(bank: Option<nat>, addr: word)
    ensures Even(addr) + 1 < 0x10000
    ensures LeafOf(bank, Even(addr)) == LeafOf(bank, addr) == LeafOf(bank, Even(addr) + 1)
  {
    EvenIn8K(addr);
  }

  /** The two bytes behind one leaf. */
  function WordIn(s: Bus, leaf: Leaf, o: nat): Option<word>
    requires WfBus(s) && o + 1 < Span(leaf) && (leaf.BankCart? ==> leaf.bank < BANKS)
    requires leaf.Expansion? ==> leaf.base <= 0x6000
  {
    match leaf
    case ConsoleRom => Some(s.console[o] as int * 256 + s.console[o + 1])
    case Expansion(base) => Some(s.ram[base + o] as int * 256 + s.ram[base + o + 1])
    case LowerCart => Some(s.carts[0][o] as int * 256 + s.carts[0][o + 1])
    case UpperCart =>
      Some(if s.mini.Some? then s.mini.value[o] as int * 256 + s.mini.value[o + 1]
           else s.carts[0][0x1000 + o] as int * 256 + s.carts[0][0x1000 + o + 1])
    case BankCart(b) => Some(s.carts[b][o] as int * 256 + s.carts[b][o + 1])
    case ScratchPad => Some(s.pad[o] as int * 256 + s.pad[o + 1])
    case _ => None
  }

  lemma WordIs(s: Bus, addr: word)
    requires WfBus(s)
    ensures var leaf := LeafOf(s.bank, addr);
            var o := addr % Span(leaf) - addr % Span(leaf) % 2;
            && o + 1 < Span(leaf) && (leaf.BankCart? ==> leaf.bank < BANKS) && (leaf.Expansion? ==> leaf.base <= 0x6000)
            && WordFrom(s, addr) == WordIn(s, leaf, o)
  {
    SamePage(s.bank, addr);
    hide Even;
  }

  lemma SelectPage(s: Bus, addr: word)
    requires WfBus(s)
    ensures IsSelect(s, addr) <==> LeafOf(s.bank, addr).LowerCart? || LeafOf(s.bank, addr).BankCart?
  {
  }

  lemma FirstStep(bank: Option<nat>, addr: word)
    ensures var m := MapMain(bank)[addr / 0x2000];
            m.submap != [] ==>
              var a := addr % (m.mask + 1);
              && Shr(a, m.bits) < |m.submap| && m.submap[Shr(a, m.bits)].submap == []
              && Walk(m, addr) == (Walk(m.submap[Shr(a, m.bits)], a).0, 1) && Walk(m.submap[Shr(a, m.bits)], a).1 == 0
  {
    SmallShifts();
    hide Pow2;
  }
}
