/** The TMS9900 as a value: registers, workspace registers in memory, and every instruction. */
module Cpu {
  import opened Bytes

  type word = x: int | 0 <= x < 0x10000

  /** Words of memory; a word access ignores the low bit of its address. */
  type Memory = m: seq<word> | |m| == 0x8000 ghost witness seq(0x8000, _ => 0)

  datatype State = State(pc: word, wp: word, st: word, mem: Memory)

  /** Halted: the emulator stops. Again: X hands over to the word it read. */
  datatype Outcome = Done(s: State) | Halted | Again(s: State, data: word)

  const LGT: word := 0x8000
  const AGT: word := 0x4000
  const EQ: word := 0x2000
  const CY: word := 0x1000
  const OV: word := 0x0800
  const OP: word := 0x0400
  const MASKS: int := 16             // FLAG_MSK covers the values below

  predicate IsFlag(f: word) {
    f == LGT || f == AGT || f == EQ || f == CY || f == OV || f == OP
  }

  function Low(x: int): word { x % 0x10000 }

  function Signed(x: word): int { if x >= 0x8000 then x - 0x10000 else x }

  function SignedByte(x: word): int { if x % 256 >= 0x80 then x % 256 - 256 else x % 256 }

  // ----- bitwise

  function And(a: nat, b: nat, n: nat): (r: nat)
    ensures r < Pow2(n)
  {
    if n == 0 then 0 else 2 * And(a / 2, b / 2, n - 1) + (if a % 2 == 1 && b % 2 == 1 then 1 else 0)
  }

  function Or(a: nat, b: nat, n: nat): (r: nat)
    ensures r < Pow2(n)
  {
    if n == 0 then 0 else 2 * Or(a / 2, b / 2, n - 1) + (if a % 2 == 1 || b % 2 == 1 then 1 else 0)
  }

  lemma Pow2Of16()
    ensures Pow2(16) == 0x10000
  {
    assert Pow2(8) == 256;
    assert Pow2(16) == 256 * Pow2(8) by {
      assert Pow2(12) == 16 * Pow2(8);
      assert Pow2(16) == 16 * Pow2(12);
    }
  }

  function AndW(a: word, b: word): word { Pow2Of16(); And(a, b, 16) }

  function OrW(a: word, b: word): word { Pow2Of16(); Or(a, b, 16) }

  function XorW(a: word, b: word): word { Pow2Of16(); Xor(a, b, 16) }

  function Not(a: word): word { 0xffff - a }

  // ----- status

  predicate Has(st: word, f: word)
    requires IsFlag(f)
  {
    st / f % 2 == 1
  }

  function Set(st: word, f: word, c: bool): word
    requires IsFlag(f)
  {
    SetRange(st, f);
    if c && !Has(st, f) then st + f else if !c && Has(st, f) then st - f else st
  }

  lemma SetRange(st: word, f: word)
    requires IsFlag(f)
    ensures if Has(st, f) then st >= f else st + f < 0x10000
  {
    if f == LGT {
    } else if f == AGT {
    } else if f == EQ {
    } else if f == CY {
    } else if f == OV {
    } else {
    }
  }

  function CompareWord(st: word, s: word, d: word): word {
    Set(Set(Set(st, EQ, s == d), LGT, s > d), AGT, Signed(s) > Signed(d))
  }

  function CompareByte(st: word, s: word, d: word): word {
    Set(Set(Set(st, EQ, s == d), LGT, s > d), AGT, SignedByte(s) > SignedByte(d))
  }

  function OddParity(x: nat, n: nat): bool {
    if n == 0 then false else OddParity(x, n - 1) != (TestBit(x, n - 1) == 1)
  }

  function Parity(st: word, x: word): word { Set(st, OP, OddParity(x, 8)) }

  // ----- memory

  function ReadW(m: Memory, a: word): word { m[a / 2] }

  function WriteW(m: Memory, a: word, v: word): Memory { m[a / 2 := v] }

  function ReadB(m: Memory, a: word): word { if a % 2 == 0 then m[a / 2] / 256 else m[a / 2] % 256 }

  function WriteB(m: Memory, a: word, v: word): Memory {
    var w := m[a / 2];
    m[a / 2 := if a % 2 == 0 then v % 256 * 256 + w % 256 else w / 256 * 256 + v % 256]
  }

  /** Address of workspace register r. */
  function RegAt(wp: word, r: nat): word { Low(wp + 2 * r) }

  function Reg(s: State, r: nat): word { ReadW(s.mem, RegAt(s.wp, r)) }

  function PutReg(s: State, r: nat, v: word): State { s.(mem := WriteW(s.mem, RegAt(s.wp, r), v)) }

  function Store(s: State, a: word, v: word): State { s.(mem := WriteW(s.mem, a, v)) }

  function StoreB(s: State, a: word, v: word): State { s.(mem := WriteB(s.mem, a, v)) }

  function Fetched(s: State): word { ReadW(s.mem, s.pc) }

  function Next(s: State): State { s.(pc := Low(s.pc + 2)) }

  // ----- contexts

  /** _blwp: switch to the workspace and program named at addr, and save the old context in the
      new R13, R14 and R15. */
  function Blwp(s: State, addr: word): State {
    var wp := ReadW(s.mem, addr);
    var pc := ReadW(s.mem, Low(addr + 2));
    PutReg(PutReg(PutReg(State(pc, wp, s.st, s.mem), 13, s.wp), 14, s.pc), 15, s.st)
  }

  function Rtwp(s: State): State {
    State(Reg(s, 14), Reg(s, 13), Reg(s, 15), s.mem)
  }

  // ----- operands

  const NORMAL: int := 0
  const INDIR: int := 1
  const SYM: int := 2
  const INDIRINC: int := 3

  /** _operandDecode: the state after it and the operand's address. */
  function Operand(s: State, mode: int, reg: nat, isByte: bool): (State, word)
    requires 0 <= mode < 4
  {
    if mode == NORMAL then (s, RegAt(s.wp, reg))
    else if mode == INDIR then (s, Reg(s, reg))
    else if mode == SYM then (Next(s), Low(Fetched(s) + if reg == 0 then 0 else Reg(Next(s), reg)))
    else (PutReg(s, reg, Low(Reg(s, reg) + if isByte then 1 else 2)), Reg(s, reg))
  }

  function Read(s: State, a: word, isByte: bool): word { if isByte then ReadB(s.mem, a) else ReadW(s.mem, a) }

  // ----- decoding

  datatype Kind = Immed | Single | Shift | Jump | Dual1 | Dual2 | NoKind

  /** The table opGroup, indexed by the top six bits. */
  function KindOf(data: word): Kind {
    var g := data / 0x400;
    if g == 0 then Immed else if g == 1 then Single else if g == 2 then Shift else if g == 3 then NoKind
    else if g < 8 then Jump else if g < 16 then Dual1 else Dual2
  }

  function OpMaskSize(k: Kind): (n: nat)
    ensures n > 0
  {
    match k
    case Immed => 0x20 case Single => 0x40 case Shift => 0x100 case Jump => 0x100
    case Dual1 => 0x400 case Dual2 => 0x1000 case NoKind => 1
  }

  function Opcode(data: word): word { data - data % OpMaskSize(KindOf(data)) }

  function SMode(data: word): (m: int)
    ensures 0 <= m < 4
  {
    data / 16 % 4
  }

  function DMode(data: word): (m: int)
    ensures 0 <= m < 4
  {
    data / 0x400 % 4
  }

  function SReg(data: word): (r: nat)
    ensures r < 16
  {
    data % 16
  }

  function DReg(data: word): (r: nat)
    ensures r < 16
  {
    data / 64 % 16
  }

  // ----- immediates

  /** A register's new value, compared to zero. */
  function PutResult(s: State, reg: nat, v: word, st: word): State {
    PutReg(s, reg, v).(st := CompareWord(st, v, 0))
  }

  /** Overflow and carry of an addition. */
  function AddStatus(st: word, d: word, v: word): word {
    var u := d + v;
    Set(Set(st, OV, (v >= 0x8000) == (d >= 0x8000) && (u / 0x8000 % 2 == 1) != (d >= 0x8000)), CY, u >= 0x10000)
  }

  function ClearMask(st: word): word { st - st % MASKS }

  function Immediate(s: State, op: word, reg: nat): Outcome {
    var i := Fetched(s);
    var n := Next(s);
    var r := Reg(s, reg);
    if op == 0x0200 then Done(PutReg(n, reg, i))                                            // LI
    else if op == 0x0220 then Done(PutResult(n, reg, Low(r + i), AddStatus(n.st, r, i)))    // AI
    else if op == 0x0240 then Done(PutResult(n, reg, AndW(r, i), n.st))                     // ANDI
    else if op == 0x0260 then Done(PutResult(n, reg, OrW(r, i), n.st))                      // ORI
    else if op == 0x0280 then Done(n.(st := CompareWord(n.st, r, i)))                       // CI
    else if op == 0x02A0 then Done(PutReg(s, reg, s.wp))                                    // STWP
    else if op == 0x02C0 then Done(PutReg(s, reg, s.st))                                    // STST
    else if op == 0x02E0 then Done(n.(wp := i))                                             // LWPI
    else if op == 0x0300 then Done(n.(st := OrW(ClearMask(n.st), i)))                         // LIMI
    else if op == 0x0380 then Done(Rtwp(s))                                                 // RTWP
    else Halted
  }

  // ----- one operand

  function Replace(s: State, a: word, v: word, st: word): State {
    Store(s, a, v).(st := CompareWord(st, v, 0))
  }

  /** INCT and DECT at an odd address touch the low byte only. */
  function ReplaceByTwo(s: State, a: word, v: word, st: word): State {
    if a % 2 == 1 then StoreB(s, a, v % 256).(st := CompareByte(st, v % 256, 0)) else Replace(s, a, v, st)
  }

  /** The instructions that read the operand, change it and set the status. */
  function Modified(s: State, op: word, a: word): Outcome {
    var p := ReadW(s.mem, a);
    if op == 0x0500 then                                                                    // NEG
      Done(Replace(s, a, Low(0x10000 - p), Set(Set(s.st, CY, p == 0x8000), OV, p >= 0x8000)))
    else if op == 0x0540 then Done(Replace(s, a, Not(p), s.st))                             // INV
    else if op == 0x0580 then                                                               // INC
      Done(Replace(s, a, Low(p + 1), Set(Set(s.st, OV, p < 0x8000 && (p + 1) / 0x8000 % 2 == 1), CY, p == 0xffff)))
    else if op == 0x05C0 then                                                               // INCT
      Done(ReplaceByTwo(s, a, Low(p + 2), Set(Set(s.st, OV, p < 0x8000 && (p + 2) / 0x8000 % 2 == 1), CY, p >= 0xfffe)))
    else if op == 0x0600 then                                                               // DEC
      Done(Replace(s, a, Low(p - 1), Set(Set(s.st, CY, p != 0), OV, p >= 0x8000 && p - 1 < 0x8000)))
    else if op == 0x0640 then                                                               // DECT
      Done(ReplaceByTwo(s, a, Low(p - 2), Set(Set(s.st, CY, p > 1), OV, p >= 0x8000 && p - 2 < 0x8000)))
    else if op == 0x06C0 then Done(Replace(s, a, p % 256 * 256 + p / 256, s.st))            // SWPB
    else if op == 0x0740 then                                                               // ABS
      var st := Set(Set(Set(s.st, CY, p == 0x8000), OV, p >= 0x8000), AGT, SignedByte(p) > 0);
      var v := if p >= 0x8000 then Low(0x10000 - p) else p;
      Done(Store(s, a, v).(st := Set(Set(st, EQ, v == 0), LGT, v != 0)))
    else Halted
  }

  function OneOperand(s0: State, op: word, mode: int, reg: nat): Outcome
    requires 0 <= mode < 4
  {
    var (s, a) := Operand(s0, mode, reg, false);
    if op == 0x0400 then Done(Blwp(s, a))                                                   // BLWP
    else if op == 0x0440 then Done(s.(pc := a))                                             // B
    else if op == 0x0480 then Again(s, ReadW(s.mem, a))                                     // X
    else if op == 0x04C0 then Done(Store(s, a, 0))                                          // CLR
    else if op == 0x0680 then Done(PutReg(s, 11, s.pc).(pc := a))                           // BL
    else if op == 0x0700 then Done(Store(s, a, 0xffff))                                     // SETO
    else Modified(s, op, a)
  }

  // ----- shifts

  /** A count of 0 means the low four bits of R0, and 0 there means 16. */
  function ShiftCount(s: State, count: nat): (c: nat)
    requires count < 16
    ensures 1 <= c <= 16
  {
    if count != 0 then count else if Reg(s, 0) % 16 != 0 then Reg(s, 0) % 16 else 16
  }

  /** The 32-bit register after the shift; its bit 15 is the carry of the right shifts. */
  function Shifted(op: word, v: word, c: nat): (r: int)
    requires c <= 16
  {
    if op == 0x0800 then Signed(v) * 0x10000 / Pow2(c)                                      // SRA
    else if op == 0x0B00 then (v * 0x10000 + v) / Pow2(c)                                   // SRC
    else if op == 0x0900 then v * 0x10000 / Pow2(c)                                         // SRL
    else v * Pow2(c)                                                                        // SLA
  }

  function ShiftResult(op: word, v: word, c: nat): word
    requires c <= 16
  {
    var r := Shifted(op, v, c);
    if op == 0x0B00 || op == 0x0A00 then Low(r) else Low(r / 0x10000)
  }

  function ShiftCarry(op: word, v: word, c: nat): bool
    requires c <= 16
  {
    var r := Shifted(op, v, c);
    if op == 0x0A00 then r / 0x10000 % 2 == 1 else r / 0x8000 % 2 == 1
  }

  function ShiftReg(s: State, op: word, reg: nat, count: nat): Outcome
    requires count < 16
  {
    if op != 0x0800 && op != 0x0900 && op != 0x0A00 && op != 0x0B00 then Halted
    else
      var c := ShiftCount(s, count);
      var v := Reg(s, reg);
      var r := ShiftResult(op, v, c);
      var st := Set(s.st, CY, ShiftCarry(op, v, c));
      var st1 := if op == 0x0A00 then Set(st, OV, (r >= 0x8000) != (v >= 0x8000)) else st;
      Done(PutReg(s, reg, r).(st := CompareWord(st1, r, 0)))
  }

  // ----- jumps

  predicate AllSet(st: word, fs: seq<word>)
    requires forall i :: 0 <= i < |fs| ==> IsFlag(fs[i])
  {
    forall i :: 0 <= i < |fs| ==> Has(st, fs[i])
  }

  predicate AllClear(st: word, fs: seq<word>)
    requires forall i :: 0 <= i < |fs| ==> IsFlag(fs[i])
  {
    forall i :: 0 <= i < |fs| ==> !Has(st, fs[i])
  }

  /** _jumpAnd and _jumpOr with the masks of each jump. */
  predicate Taken(op: word, st: word) {
    if op == 0x1000 then true                                   // JMP
    else if op == 0x1100 then AllClear(st, [AGT, EQ])           // JLT
    else if op == 0x1200 then Has(st, EQ) || !Has(st, LGT)      // JLE
    else if op == 0x1300 then AllSet(st, [EQ])                  // JEQ
    else if op == 0x1400 then Has(st, LGT) || Has(st, EQ)       // JHE
    else if op == 0x1500 then AllSet(st, [AGT]) && AllClear(st, [EQ])  // JGT
    else if op == 0x1600 then AllClear(st, [EQ])                // JNE
    else if op == 0x1700 then AllClear(st, [CY])                // JNC
    else if op == 0x1800 then AllSet(st, [CY])                  // JOC
    else if op == 0x1900 then AllClear(st, [OV])                // JNO
    else if op == 0x1A00 then AllClear(st, [LGT, EQ])           // JL
    else if op == 0x1B00 then AllSet(st, [LGT]) && AllClear(st, [EQ])  // JH
    else false
  }

  /** cru: what the CRU line reads. The bits written to it are not part of the state. */
  function JumpTo(s: State, op: word, offset: int, cru: word): Outcome {
    if 0x1000 <= op < 0x1C00 then Done(if Taken(op, s.st) then s.(pc := Low(s.pc + 2 * offset)) else s)
    else if op == 0x1D00 || op == 0x1E00 then Done(s)                                       // SBO, SBZ
    else if op == 0x1F00 then Done(s.(st := Set(s.st, EQ, cru != 0)))                       // TB
    else Halted
  }

  // ----- a register and an operand

  function RegAndOperand(s0: State, op: word, dReg: nat, mode: int, reg: nat, cru: word): Outcome
    requires 0 <= mode < 4
  {
    var (s, a) := Operand(s0, mode, reg, false);
    var v := ReadW(s.mem, a);
    var d := Reg(s, dReg);
    if op == 0x2000 then Done(s.(st := CompareWord(s.st, AndW(v, d), v)))                   // COC
    else if op == 0x2400 then Done(s.(st := CompareWord(s.st, AndW(v, Not(d)), v)))         // CZC
    else if op == 0x2800 then Done(PutResult(s, dReg, XorW(d, v), s.st))                      // XOR
    else if op == 0x2C00 then Done(s)                                                       // XOP: no handler
    else if op == 0x3800 then Done(Multiply(s, dReg, v))                                    // MPY
    else if op == 0x3C00 then Done(Divide(s, dReg, v))                                      // DIV
    else if op == 0x3000 || op == 0x3400 then Done(CruTransfer(s, op, dReg, a, cru))
    else Halted
  }

  /** LDCR sends count bits to the CRU, STCR stores what it reads; up to eight go as a byte. */
  function CruTransfer(s: State, op: word, count: nat, a: word, cru: word): State {
    if op == 0x3000 then if count <= 8 then s.(st := Parity(s.st, ReadB(s.mem, a))) else s
    else if count <= 8 then StoreB(s, a, cru).(st := Parity(s.st, cru)) else Store(s, a, cru)
  }

  function Multiply(s: State, dReg: nat, v: word): State {
    var p: int := Reg(s, dReg) * v;
    MulBound(Reg(s, dReg), v);
    PutReg(PutReg(s, dReg, Low(p / 0x10000)), dReg + 1, Low(p))
  }

  lemma MulMonotone(a: int, b: int, c: nat)
    requires 0 <= a <= b
    ensures 0 <= a * c <= b * c
  {
    assert (b - a) * c >= 0;
  }

  lemma MulOrder(a: int, b: int, c: nat)
    ensures a <= b ==> a * c <= b * c
    ensures a < b ==> a * c + c <= b * c
  {
    assert b * c - a * c == (b - a) * c;
    if a < b {
      MulMonotone(1, b - a, c);
    }
  }

  lemma MulBound(a: word, b: word)
    ensures 0 <= a * b < 0x100000000
  {
    MulMonotone(a, 0xffff, b);
    MulMonotone(b, 0xffff, 0xffff);
  }

  /** The remainder's register is written after the quotient's. */
  function Divide(s: State, dReg: nat, v: word): State {
    if v <= Reg(s, dReg) then s.(st := Set(s.st, OV, true))
    else
      var u := Reg(s, dReg) * 0x10000 + Reg(s, dReg + 1);
      PutReg(PutReg(s, dReg, Low(u / v)), dReg + 1, Low(u % v)).(st := Set(s.st, OV, false))
  }

  // ----- two operands

  /** What a two-operand instruction makes of source v and destination d: the result, the status,
      and whether it is stored. */
  function TwoOperandResult(st: word, op: word, v: word, d: word): (word, word, bool)
    requires 0x4000 <= op
  {
    if op == 0x4000 then (AndW(d, Not(v)), CompareWord(st, AndW(d, Not(v)), 0), true)       // SZC
    else if op == 0x5000 then                                                               // SZCB
      (AndW(d, Not(v)), Parity(CompareByte(st, AndW(d, Not(v)), 0), AndW(d, Not(v))), true)
    else if op == 0x6000 then                                                               // S
      var r := Low(d - v);
      var ov := (v >= 0x8000) != (d >= 0x8000) && (r >= 0x8000) != (d >= 0x8000);
      (r, CompareWord(Set(Set(st, OV, ov), CY, d >= v), r, 0), true)
    else if op == 0x7000 then                                                               // SB
      var r := (d - v) % 256;
      var u := Low(d - v);
      var ov := (v >= 0x8000) != (d >= 0x8000) && (u >= 0x8000) != (d >= 0x8000);
      (r, Parity(CompareByte(Set(Set(st, OV, ov), CY, d >= v), r, 0), r), true)
    else if op == 0x8000 then (d, CompareWord(st, v, d), false)                             // C
    else if op == 0x9000 then (d, Parity(CompareByte(st, v, d), v), false)                  // CB
    else if op == 0xA000 then                                                               // A
      (Low(d + v), CompareWord(AddStatus(st, d, v), Low(d + v), 0), true)
    else if op == 0xB000 then                                                               // AB
      var u := d + v;
      var ov := (v >= 0x8000) == (d >= 0x8000) && (u / 0x8000 % 2 == 1) != (d >= 0x8000);
      (u % 256, Parity(CompareByte(Set(Set(st, OV, ov), CY, u >= 0x100), u % 256, 0), u % 256), true)
    else if op == 0xC000 then (v, CompareWord(st, v, 0), true)                              // MOV
    else if op == 0xD000 then (v, CompareByte(Parity(st, v), v, 0), true)                   // MOVB
    else if op == 0xE000 then (OrW(d, v), CompareWord(st, OrW(d, v), 0), true)              // SOC
    else (OrW(d, v), Parity(CompareByte(st, OrW(d, v), 0), OrW(d, v)), true)                // SOCB
  }

  /** The destination is not read by MOV and MOVB. */
  function DestinationValue(s: State, op: word, a: word, isByte: bool): word {
    if op == 0xC000 || op == 0xD000 then 0 else Read(s, a, isByte)
  }

  function TwoOperands(s0: State, op: word, dMode: int, dReg: nat, mode: int, reg: nat, isByte: bool): Outcome
    requires 0 <= mode < 4 && 0 <= dMode < 4 && 0x4000 <= op
  {
    var (s1, a) := Operand(s0, mode, reg, isByte);
    var v := Read(s1, a, isByte);
    var (s, da) := Operand(s1, dMode, dReg, isByte);
    var d := DestinationValue(s, op, da, isByte);
    var (r, st, store) := TwoOperandResult(s.st, op, v, d);
    Done(if !store then s.(st := st) else if isByte then StoreB(s, da, r).(st := st) else Store(s, da, r).(st := st))
  }

  // ----- execute

  /** The instruction in data, already fetched. */
  function Execute(s: State, data: word, cru: word): Outcome {
    var op := Opcode(data);
    match KindOf(data)
    case Immed => Immediate(s, op, SReg(data))
    case Single => OneOperand(s, op, SMode(data), SReg(data))
    case Shift => ShiftReg(s, op, SReg(data), data / 16 % 16)
    case Jump => JumpTo(s, op, SignedByte(data), cru)
    case Dual1 => RegAndOperand(s, op, DReg(data), SMode(data), SReg(data), cru)
    case Dual2 => TwoOperands(s, op, DMode(data), DReg(data), SMode(data), SReg(data), data / 0x1000 % 2 == 1)
    case NoKind => Halted
  }

  /** Fetch and execute. */
  function Exec(s: State, cru: word): Outcome {
    Execute(Next(s), Fetched(s), cru)
  }

  // ----- interrupts

  /** interruptLevel, with pending for what its loop over the interrupt controller finds. */
  function Level(mask: int, pending: bool): int {
    if mask == 0 then -1 else if pending then 1 else -1
  }

  /** The end of execute. */
  function Interrupt(s: State, pending: bool): State {
    var level := Level(s.st % MASKS, pending);
    if level < 0 then s
    else
      var t := Blwp(s, 4 * level);
      t.(st := ClearMask(t.st) + if level > 0 then level - 1 else 0)
  }
}
