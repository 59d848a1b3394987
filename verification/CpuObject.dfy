/** The TMS9900 object: fields and memory updated in place, each method tied to the CPU as a
    value. */
module CpuObject {
  import opened Bytes
  import opened Cpu
  import opened Contexts

  /** How an instruction ended: normally, in a halt, or with X handing over a word. */
  datatype Result = Fine | Stop | Redo(data: word)

  ghost predicate Matches(r: Result, s: State, o: Outcome) {
    match o
    case Done(t) => r == Fine && s == t
    case Halted => r == Stop
    case Again(t, d) => r == Redo(d) && s == t
  }

  class TMS9900 {
    var pc: word
    var wp: word
    var st: word
    const mem: array<word>             // what the memory handlers read and write, as plain RAM

    ghost predicate Valid() {
      mem.Length == 0x8000
    }

    ghost function M(): State
      requires Valid()
      reads this, mem
    {
      State(pc, wp, st, mem[..])
    }

    constructor (mem: array<word>)
      requires mem.Length == 0x8000
      ensures Valid() && this.mem == mem && st == 0
    {
      this.mem, pc, wp, st := mem, 0, 0, 0;
    }

    method Regr(r: nat) returns (v: word)
      requires Valid()
      ensures v == Reg(M(), r)
    {
      v := mem[Low(wp + r * 2) / 2];
    }

    method Regw(r: nat, v: word)
      requires Valid()
      modifies mem
      ensures M() == PutReg(old(M()), r, v)
    {
      mem[Low(wp + r * 2) / 2] := v;
    }

    method WriteWord(a: word, v: word)
      requires Valid()
      modifies mem
      ensures M() == Store(old(M()), a, v)
    {
      mem[a / 2] := v;
    }

    method WriteByte(a: word, v: word)
      requires Valid()
      modifies mem
      ensures M() == StoreB(old(M()), a, v)
    {
      var w := mem[a / 2];
      mem[a / 2] := if a % 2 == 0 then v % 256 * 256 + w % 256 else w / 256 * 256 + v % 256;
    }

    method Fetch() returns (v: word)
      requires Valid()
      modifies this`pc
      ensures v == Fetched(old(M())) && M() == Next(old(M()))
    {
      v := mem[pc / 2];
      pc := Low(pc + 2);
    }

    method BlwpAt(addr: word)
      requires Valid()
      modifies this, mem
      ensures M() == Blwp(old(M()), addr)
    {
      var owp, opc := wp, pc;
      wp := mem[addr / 2];
      pc := mem[Low(addr + 2) / 2];
      Regw(13, owp);
      Regw(14, opc);
      Regw(15, st);
    }

    method ReturnWp()
      requires Valid()
      modifies this
      ensures M() == Rtwp(old(M()))
    {
      pc := Regr(14);
      st := Regr(15);
      wp := Regr(13);
    }

    // ----- status

    method Status(f: word, c: bool)
      requires Valid() && IsFlag(f)
      modifies this`st
      ensures M() == old(M()).(st := Set(old(st), f, c))
    {
      hide Set;
      st := Set(st, f, c);
    }

    method Compare(s: word, d: word)
      requires Valid()
      modifies this`st
      ensures M() == old(M()).(st := CompareWord(old(st), s, d))
    {
      hide Set;
      Status(EQ, s == d);
      Status(LGT, s > d);
      Status(AGT, Signed(s) > Signed(d));
    }

    method CompareBytes(s: word, d: word)
      requires Valid()
      modifies this`st
      ensures M() == old(M()).(st := CompareByte(old(st), s, d))
    {
      hide Set;
      Status(EQ, s == d);
      Status(LGT, s > d);
      Status(AGT, SignedByte(s) > SignedByte(d));
    }

    method StatusParity(v: word)
      requires Valid()
      modifies this`st
      ensures M() == old(M()).(st := Parity(old(st), v))
    {
      hide Set, TestBit;
      var oddParity := false;
      for i := 0 to 8
        invariant oddParity == OddParity(v, i)
      {
        if TestBit(v, i) == 1 {
          oddParity := !oddParity;
        }
      }
      Status(OP, oddParity);
    }

    // ----- operands

    method OperandDecode(mode: int, reg: nat, isByte: bool) returns (addr: word)
      requires Valid() && 0 <= mode < 4
      modifies this`pc, mem
      ensures (M(), addr) == Operand(old(M()), mode, reg, isByte)
    {
      if mode == NORMAL {
        addr := Low(wp + reg * 2);
      } else if mode == INDIR {
        addr := Regr(reg);
      } else if mode == SYM {
        addr := Fetch();
        if reg != 0 {
          var index := Regr(reg);
          addr := Low(addr + index);
        }
      } else {
        addr := Regr(reg);
        Regw(reg, Low(addr + if isByte then 1 else 2));
      }
    }

    method OperandFetch(addr: word, isByte: bool, doFetch: bool) returns (v: word)
      requires Valid()
      ensures v == if doFetch then Read(M(), addr, isByte) else 0
    {
      v := 0;
      if doFetch {
        v := if !isByte then mem[addr / 2] else if addr % 2 == 0 then mem[addr / 2] / 256 else mem[addr / 2] % 256;
      }
    }

    // ----- immediates

    method ExecuteImmediate(op: word, reg: nat) returns (r: Result)
      requires Valid()
      modifies this, mem
      ensures Matches(r, M(), Immediate(old(M()), op, reg))
    {
      hide Set, CompareWord, AndW, OrW, WriteW, Low;
      r := Fine;
      if op == 0x0200 {
        var immed := Fetch();
        Regw(reg, immed);
      } else if op == 0x0220 {
        AddImmediate(reg);
      } else if op == 0x0240 {
        var data := Regr(reg);
        var immed := Fetch();
        Result0(reg, AndW(data, immed));
      } else if op == 0x0260 {
        var data := Regr(reg);
        var immed := Fetch();
        Result0(reg, OrW(data, immed));
      } else if op == 0x0280 {
        var data := Regr(reg);
        var immed := Fetch();
        Compare(data, immed);
      } else if op == 0x02C0 {
        Regw(reg, st);
      } else if op == 0x02A0 {
        Regw(reg, wp);
      } else if op == 0x02E0 {
        var immed := Fetch();
        wp := immed;
      } else if op == 0x0300 {
        var kept := ClearMask(st);
        var immed := Fetch();
        st := OrW(kept, immed);
      } else if op == 0x0380 {
        ReturnWp();
      } else {
        r := Stop;
      }
    }

    method AddImmediate(reg: nat)
      requires Valid()
      modifies this, mem
      ensures Done(M()) == Immediate(old(M()), 0x0220, reg)
    {
      hide Set, CompareWord, WriteW;
      var data := Regr(reg);
      var immed := Fetch();
      var sum: int := data as int + immed;
      Status(OV, (immed >= 0x8000) == (data >= 0x8000) && (sum / 0x8000 % 2 == 1) != (data >= 0x8000));
      Status(CY, sum >= 0x10000);
      Result0(reg, Low(sum));
    }

    /** Store in a register and compare to zero. */
    method Result0(reg: nat, v: word)
      requires Valid()
      modifies this`st, mem
      ensures M() == PutResult(old(M()), reg, v, old(st))
    {
      hide CompareWord, WriteW;
      Regw(reg, v);
      Compare(v, 0);
    }

    // ----- one operand

    method StoreCompare(addr: word, v: word)
      requires Valid()
      modifies this`st, mem
      ensures M() == Replace(old(M()), addr, v, old(st))
    {
      hide CompareWord, WriteW;
      WriteWord(addr, v);
      Compare(v, 0);
    }

    method StoreByTwo(addr: word, v: word)
      requires Valid()
      modifies this`st, mem
      ensures M() == ReplaceByTwo(old(M()), addr, v, old(st))
    {
      hide CompareWord, CompareByte, WriteW, WriteB;
      if addr % 2 == 1 {
        WriteByte(addr, v % 256);
        CompareBytes(v % 256, 0);
      } else {
        StoreCompare(addr, v);
      }
    }

    method ExecuteSingle(op: word, mode: int, reg: nat) returns (r: Result)
      requires Valid() && 0 <= mode < 4
      modifies this, mem
      ensures Matches(r, M(), OneOperand(old(M()), op, mode, reg))
    {
      hide Set, Modified, Operand, WriteW, Cpu.Blwp;
      r := Fine;
      var addr := OperandDecode(mode, reg, false);
      if op == 0x0400 {
        BlwpAt(addr);
      } else if op == 0x0440 {
        pc := addr;
      } else if op == 0x0480 {
        return Redo(mem[addr / 2]);
      } else if op == 0x04C0 {
        WriteWord(addr, 0);
      } else if op == 0x0680 {
        Regw(11, pc);
        pc := addr;
      } else if op == 0x0700 {
        WriteWord(addr, 0xffff);
      } else {
        r := Modify(op, addr);
      }
    }

    /** The instructions that read the operand, change it and set the status. */
    method Modify(op: word, addr: word) returns (r: Result)
      requires Valid()
      modifies this`st, mem
      ensures Matches(r, M(), Modified(old(M()), op, addr))
    {
      hide Set, WriteW, WriteB, CompareWord, CompareByte, SignedByte;
      r := Fine;
      var param: int := mem[addr / 2];
      if op == 0x0500 {
        Status(CY, param == 0x8000);
        Status(OV, param >= 0x8000);
        StoreCompare(addr, Low(0x10000 - param));
      } else if op == 0x0540 {
        StoreCompare(addr, Not(param));
      } else if op == 0x0580 {
        Status(OV, param < 0x8000 && (param + 1) / 0x8000 % 2 == 1);
        Status(CY, param == 0xffff);
        StoreCompare(addr, Low(param + 1));
      } else if op == 0x05C0 {
        Status(OV, param < 0x8000 && (param + 2) / 0x8000 % 2 == 1);
        Status(CY, param >= 0xfffe);
        StoreByTwo(addr, Low(param + 2));
      } else if op == 0x0600 {
        Status(CY, param != 0);
        Status(OV, param >= 0x8000 && param - 1 < 0x8000);
        StoreCompare(addr, Low(param - 1));
      } else if op == 0x0640 {
        Status(CY, param != 0 && param != 1);
        Status(OV, param >= 0x8000 && param - 2 < 0x8000);
        StoreByTwo(addr, Low(param - 2));
      } else if op == 0x06C0 {
        StoreCompare(addr, param % 256 * 256 + param / 256);
      } else if op == 0x0740 {
        Status(CY, param == 0x8000);
        Status(OV, param >= 0x8000);
        Status(AGT, SignedByte(param) > 0);
        var v := if param >= 0x8000 then Low(0x10000 - param) else param;
        WriteWord(addr, v);
        Status(EQ, v == 0);
        Status(LGT, v != 0);
      } else {
        r := Stop;
      }
    }

    // ----- shifts

    method ExecuteShift(op: word, reg: nat, count: nat) returns (r: Result)
      requires Valid() && count < 16
      modifies this`st, mem
      ensures Matches(r, M(), ShiftReg(old(M()), op, reg, count))
    {
      hide Set, CompareWord, WriteW, Pow2;
      r := Fine;
      var c := count;
      if c == 0 {
        var r0 := Regr(0);
        c := r0 % 16;
      }
      if c == 0 {
        c := 16;
      }
      assert c == ShiftCount(old(M()), count);
      var v := Regr(reg);
      if op == 0x0800 {
        var i32 := Signed(v) * 0x10000 / Pow2(c);
        Status(CY, i32 / 0x8000 % 2 == 1);
        Result0(reg, Low(i32 / 0x10000));
      } else if op == 0x0B00 {
        var u32 := (v * 0x10000 + v) / Pow2(c);
        Status(CY, u32 / 0x8000 % 2 == 1);
        Result0(reg, Low(u32));
      } else if op == 0x0900 {
        var u32 := v * 0x10000 / Pow2(c);
        Status(CY, u32 / 0x8000 % 2 == 1);
        Result0(reg, Low(u32 / 0x10000));
      } else if op == 0x0A00 {
        var u32 := v * Pow2(c);
        Status(CY, u32 / 0x10000 % 2 == 1);
        Status(OV, (Low(u32) >= 0x8000) != (v >= 0x8000));
        Result0(reg, Low(u32));
      } else {
        r := Stop;
      }
    }

    // ----- jumps

    method JumpAnd(setMask: seq<word>, clrMask: seq<word>, offset: int)
      requires Valid() && (forall i :: 0 <= i < |setMask| ==> IsFlag(setMask[i])) && (forall i :: 0 <= i < |clrMask| ==> IsFlag(clrMask[i]))
      modifies this`pc
      ensures M() == if AllSet(st, setMask) && AllClear(st, clrMask) then old(M()).(pc := Low(old(pc) + 2 * offset)) else old(M())
    {
      if AllSet(st, setMask) && AllClear(st, clrMask) {
        pc := Low(pc + 2 * offset);
      }
    }

    method JumpOr(setMask: seq<word>, clrMask: seq<word>, offset: int)
      requires Valid() && (forall i :: 0 <= i < |setMask| ==> IsFlag(setMask[i])) && (forall i :: 0 <= i < |clrMask| ==> IsFlag(clrMask[i]))
      modifies this`pc
      ensures M() == if !AllClear(st, setMask) || !AllSet(st, clrMask) then old(M()).(pc := Low(old(pc) + 2 * offset)) else old(M())
    {
      if !AllClear(st, setMask) || !AllSet(st, clrMask) {
        pc := Low(pc + 2 * offset);
      }
    }

    method ExecuteJump(op: word, offset: int, cru: word) returns (r: Result)
      requires Valid() && op % 0x100 == 0
      modifies this
      ensures Matches(r, M(), JumpTo(old(M()), op, offset, cru))
    {
      hide Set, Has, AllSet, AllClear, Low;
      r := Fine;
      Masks(st);
      if op == 0x1000 { JumpAnd([], [], offset); }
      else if op == 0x1100 { JumpAnd([], [AGT, EQ], offset); }
      else if op == 0x1500 { JumpAnd([AGT], [EQ], offset); }
      else if op == 0x1A00 { JumpAnd([], [LGT, EQ], offset); }
      else if op == 0x1200 { JumpOr([EQ], [LGT], offset); }
      else if op == 0x1B00 { JumpAnd([LGT], [EQ], offset); }
      else if op == 0x1400 { JumpOr([LGT, EQ], [], offset); }
      else if op == 0x1700 { JumpAnd([], [CY], offset); }
      else if op == 0x1800 { JumpAnd([CY], [], offset); }
      else if op == 0x1900 { JumpAnd([], [OV], offset); }
      else if op == 0x1600 { JumpAnd([], [EQ], offset); }
      else if op == 0x1300 { JumpAnd([EQ], [], offset); }
      else if op == 0x1E00 || op == 0x1D00 { }
      else if op == 0x1F00 { Status(EQ, cru != 0); }
      else { r := Stop; }
    }

    // ----- a register and an operand

    method ExecuteDual1(op: word, dReg: nat, mode: int, reg: nat, cru: word) returns (r: Result)
      requires Valid() && 0 <= mode < 4
      modifies this, mem
      ensures Matches(r, M(), RegAndOperand(old(M()), op, dReg, mode, reg, cru))
    {
      hide Set, CompareWord, Operand, AndW, XorW, Not, Low, RegAt, WriteW, CruTransfer, Cpu.Multiply, Cpu.Divide;
      r := Fine;
      var sAddr := OperandDecode(mode, reg, false);
      var sData := OperandFetch(sAddr, false, true);
      var dData := Regr(dReg);
      if op == 0x2000 {
        Compare(AndW(sData, dData), sData);
      } else if op == 0x2400 {
        Compare(AndW(sData, Not(dData)), sData);
      } else if op == 0x2800 {
        Result0(dReg, XorW(dData, sData));
      } else if op == 0x2C00 {
      } else if op == 0x3800 {
        MultiplyBy(dReg, sData);
      } else if op == 0x3C00 {
        DivideBy(dReg, sData);
      } else if op == 0x3000 || op == 0x3400 {
        TransferBits(op, dReg, sAddr, cru);
      } else {
        r := Stop;
      }
    }

    method TransferBits(op: word, count: nat, sAddr: word, cru: word)
      requires Valid() && (op == 0x3000 || op == 0x3400)
      modifies this`st, mem
      ensures M() == CruTransfer(old(M()), op, count, sAddr, cru)
    {
      hide Parity, WriteW, WriteB;
      if op == 0x3000 {
        if count <= 8 {
          var b := OperandFetch(sAddr, true, true);
          StatusParity(b);
        }
      } else if count <= 8 {
        WriteByte(sAddr, cru);
        StatusParity(cru);
      } else {
        WriteWord(sAddr, cru);
      }
    }

    method MultiplyBy(dReg: nat, sData: word)
      requires Valid()
      modifies mem
      ensures M() == Cpu.Multiply(old(M()), dReg, sData)
    {
      hide WriteW;
      var dData := Regr(dReg);
      MulBound(dData, sData);
      var u32: int := dData as int * sData;
      Regw(dReg, Low(u32 / 0x10000));
      Regw(dReg + 1, Low(u32));
    }

    method DivideBy(dReg: nat, sData: word)
      requires Valid()
      modifies this`st, mem
      ensures M() == Cpu.Divide(old(M()), dReg, sData)
    {
      hide Set, WriteW, Low, RegAt;
      var dData := Regr(dReg);
      if sData <= dData {
        Status(OV, true);
      } else {
        Status(OV, false);
        var low := Regr(dReg + 1);
        var u32: int := dData as int * 0x10000 + low;
        var quotient, remainder := Low(u32 / sData), Low(u32 % sData);
        Regw(dReg, quotient);
        Regw(dReg + 1, remainder);
      }
    }

    // ----- two operands

    method ExecuteDual2(op: word, dMode: int, dReg: nat, sMode: int, sReg: nat, isByte: bool) returns (r: Result)
      requires Valid() && 0 <= sMode < 4 && 0 <= dMode < 4 && 0x4000 <= op && op % 0x1000 == 0
      modifies this, mem
      ensures Matches(r, M(), TwoOperands(old(M()), op, dMode, dReg, sMode, sReg, isByte))
    {
      hide Operand, TwoOperandResult, WriteW, WriteB, Read;
      var sAddr := OperandDecode(sMode, sReg, isByte);
      var sData := OperandFetch(sAddr, isByte, true);
      var dAddr := OperandDecode(dMode, dReg, isByte);
      var dData := OperandFetch(dAddr, isByte, op != 0xC000 && op != 0xD000);
      var doStore;
      dData, doStore := Combine(op, sData, dData);
      if doStore {
        if isByte {
          WriteByte(dAddr, dData);
        } else {
          WriteWord(dAddr, dData);
        }
      }
      r := Fine;
    }

    /** The switch of _executeDual2: the destination's new value and the status. */
    method Combine(op: word, sData: word, was: word) returns (dData: word, doStore: bool)
      requires Valid() && 0x4000 <= op && op % 0x1000 == 0
      modifies this`st
      ensures var (r, t, store) := TwoOperandResult(old(st), op, sData, was);
              M() == old(M()).(st := t) && dData == r && doStore == store
    {
      hide Set, CompareWord, CompareByte, OddParity, AndW, OrW, Not;
      doStore := true;
      if op == 0x4000 {
        dData := AndW(was, Not(sData));
        Compare(dData, 0);
      } else if op == 0x5000 {
        dData := AndW(was, Not(sData));
        CompareBytes(dData, 0);
        StatusParity(dData);
      } else if op == 0x6000 {
        var u32 := was - sData;
        dData := Low(u32);
        Status(OV, (sData >= 0x8000) != (was >= 0x8000) && (dData >= 0x8000) != (was >= 0x8000));
        Status(CY, u32 >= 0);
        Compare(dData, 0);
      } else if op == 0x7000 {
        var u32 := was - sData;
        Status(OV, (sData >= 0x8000) != (was >= 0x8000) && (Low(u32) >= 0x8000) != (was >= 0x8000));
        dData := u32 % 256;
        Status(CY, u32 >= 0);
        CompareBytes(dData, 0);
        StatusParity(dData);
      } else if op == 0x8000 {
        Compare(sData, was);
        dData, doStore := was, false;
      } else if op == 0x9000 {
        CompareBytes(sData, was);
        StatusParity(sData);
        dData, doStore := was, false;
      } else if op == 0xC000 {
        dData := sData;
        Compare(dData, 0);
      } else if op == 0xD000 {
        dData := sData;
        StatusParity(sData);
        CompareBytes(dData, 0);
      } else if op == 0xE000 {
        dData := OrW(was, sData);
        Compare(dData, 0);
      } else if op == 0xF000 {
        dData := OrW(was, sData);
        CompareBytes(dData, 0);
        StatusParity(dData);
      } else {
        var u32 := was + sData;
        Status(OV, (sData >= 0x8000) == (was >= 0x8000) && (u32 / 0x8000 % 2 == 1) != (was >= 0x8000));
        if op == 0xA000 {
          dData := Low(u32);
          Status(CY, u32 >= 0x10000);
          Compare(dData, 0);
        } else {
          dData := u32 % 256;
          Status(CY, u32 >= 0x100);
          CompareBytes(dData, 0);
          StatusParity(dData);
        }
      }
    }

    // ----- execute

    method Dispatch(data: word, cru: word) returns (r: Result)
      requires Valid()
      modifies this, mem
      ensures Matches(r, M(), Execute(old(M()), data, cru))
    {
      hide Immediate, OneOperand, ShiftReg, JumpTo, RegAndOperand, TwoOperands, SMode, DMode, SReg, DReg, SignedByte,
        Matches, Opcode;
      OpcodeShape(data);
      var op := Opcode(data);
      match KindOf(data)
      case Immed => r := ExecuteImmediate(op, SReg(data));
      case Single => r := ExecuteSingle(op, SMode(data), SReg(data));
      case Shift => r := ExecuteShift(op, SReg(data), data / 16 % 16);
      case Jump => r := ExecuteJump(op, SignedByte(data), cru);
      case Dual1 => r := ExecuteDual1(op, DReg(data), SMode(data), SReg(data), cru);
      case Dual2 => r := ExecuteDual2(op, DMode(data), DReg(data), SMode(data), SReg(data), data / 0x1000 % 2 == 1);
      case NoKind => r := Stop; Halts(M());
    }

    /** One turn of the emulator: fetch, execute, and then accept an interrupt if one is due.
        False when it stops, or comes to an X. */
    method ExecuteNext(cru: word, controller: Tms9901) returns (ok: bool)
      requires Valid() && controller.Valid()
      modifies this, mem
      ensures ok == Step(old(M()), Input(cru, controller.Pending())).Some?
      ensures ok ==> Step(old(M()), Input(cru, controller.Pending())) == Some(M())
    {
      hide Execute, Interrupt;
      var data := Fetch();
      var r := Dispatch(data, cru);
      if r != Fine {
        return false;
      }
      AcceptInterrupt(controller);
      ok := true;
    }

    /** The end of execute: accept an interrupt and lower the mask below its level. */
    method AcceptInterrupt(controller: Tms9901)
      requires Valid() && controller.Valid()
      modifies this, mem
      ensures M() == Interrupt(old(M()), controller.Pending())
    {
      hide Cpu.Blwp;
      var mask := st % MASKS;
      var level := controller.InterruptLevel(mask);
      if level >= 0 {
        BlwpAt(4 * level);
        mask := if level > 0 then level - 1 else 0;
        st := ClearMask(st) + mask;
      }
    }
  }

  lemma OpcodeShape(data: word)
    ensures KindOf(data) == Jump ==> Opcode(data) % 0x100 == 0
    ensures KindOf(data) == Dual2 ==> Opcode(data) % 0x1000 == 0 && Opcode(data) >= 0x4000
  {
  }

  lemma Halts(s: State)
    ensures Matches(Stop, s, Halted)
  {
  }

  lemma Masks(st: word)
    ensures AllSet(st, []) && AllClear(st, [])
    ensures AllSet(st, [LGT]) == Has(st, LGT) && AllSet(st, [EQ]) == Has(st, EQ)
    ensures AllClear(st, [EQ]) == !Has(st, EQ) && AllClear(st, [LGT, EQ]) == (!Has(st, LGT) && !Has(st, EQ))
  {
    hide Has;
    assert [LGT][0] == LGT && [EQ][0] == EQ && [LGT, EQ][0] == LGT && [LGT, EQ][1] == EQ;
  }

  /** The interrupt controller. */
  class Tms9901 {
    const intActive: array<nat>
    const intDisabled: array<nat>

    /** Flag 0 is never set: only the CRU bits 1 to 15 lead to BitSet. */
    ghost predicate Valid()
      reads intDisabled
    {
      && intActive != intDisabled && intActive.Length == 16 && intDisabled.Length == 16
      && intDisabled[0] == 0
    }

    ghost predicate Pending()
      requires Valid()
      reads intActive, intDisabled
    {
      exists i :: 0 <= i < 16 && intActive[i] != 0
    }

    constructor ()
      ensures Valid() && fresh(intActive) && fresh(intDisabled)
      ensures forall i :: 0 <= i < 16 ==> intActive[i] == 0 && intDisabled[i] == 0
    {
      intActive := new nat[16](_ => 0);
      intDisabled := new nat[16](_ => 0);
    }

    /** The loop runs one past the end of intActive, into the first entry of intDisabled, which
        is always clear. */
    method InterruptLevel(mask: int) returns (level: int)
      requires Valid()
      ensures level == Level(mask, Pending())
    {
      if mask == 0 {
        return -1;
      }
      level := -1;
      for i := 0 to 17
        invariant level == -1 && forall k :: 0 <= k < i && k < 16 ==> intActive[k] == 0
        invariant i == 17 ==> intDisabled[0] == 0
      {
        if (if i < 16 then intActive[i] else intDisabled[i - 16]) != 0 {
          return 1;
        }
      }
    }

    /** tms9901Interrupt: a low line raises an interrupt unless it is disabled. */
    method Interrupt(index: nat, state: nat)
      requires Valid() && index < 16
      modifies intActive
      ensures Valid()
      ensures intActive[..] == old(intActive[..])[index := if state == 0 && intDisabled[index] == 0 then 1 else 0]
    {
      if state == 0 && intDisabled[index] == 0 {
        intActive[index] := 1;
      } else {
        intActive[index] := 0;
      }
    }

    /** tms9901BitSet, outside timer mode, on one of the CRU bits it is attached to: 1 enables the
        interrupt and clears it, 0 disables it. */
    method BitSet(index: nat, state: nat)
      requires Valid() && 1 <= index <= 15
      modifies intActive, intDisabled
      ensures Valid()
      ensures intDisabled[..] == old(intDisabled[..])[index := if state == 0 then 1 else 0]
      ensures intActive[..] == if state == 0 then old(intActive[..]) else old(intActive[..])[index := 0]
    {
      intDisabled[index] := if state == 0 then 1 else 0;
      if state != 0 {
        intActive[index] := 0;
        Interrupt(index, state);
      }
    }
  }
}
