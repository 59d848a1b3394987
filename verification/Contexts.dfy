/** Runs of the CPU: interrupts stay out until the mask is raised, and context switches nest. */
module Contexts {
  import opened Bytes
  import opened Cpu
  import opened CpuArithmetic

  // ----- the interrupt mask

  /** LIMI and RTWP are the only instructions that load the mask. */
  predicate LoadsMask(data: word) {
    KindOf(data) == Immed && (Opcode(data) == 0x0300 || Opcode(data) == 0x0380)
  }

  lemma CompareMask(st: word, s: word, d: word)
    ensures CompareWord(st, s, d) % 16 == st % 16 && CompareByte(st, s, d) % 16 == st % 16
  {
    hide Set, Signed, SignedByte;
    SetHas(st, EQ, s == d);
    SetHas(Set(st, EQ, s == d), LGT, s > d);
    SetHas(Set(Set(st, EQ, s == d), LGT, s > d), AGT, Signed(s) > Signed(d));
    SetHas(Set(Set(st, EQ, s == d), LGT, s > d), AGT, SignedByte(s) > SignedByte(d));
  }

  lemma TwoMask(st: word, f: word, a: bool, g: word, b: bool)
    requires IsFlag(f) && IsFlag(g)
    ensures Set(Set(st, f, a), g, b) % 16 == st % 16 && Set(st, f, a) % 16 == st % 16
  {
    hide Set;
    SetHas(st, f, a);
    SetHas(Set(st, f, a), g, b);
  }

  lemma AddMask(st: word, d: word, v: word)
    ensures AddStatus(st, d, v) % 16 == st % 16
  {
    hide Set;
    var u: int := d as int + v;
    TwoMask(st, OV, (v >= 0x8000) == (d >= 0x8000) && (u / 0x8000 % 2 == 1) != (d >= 0x8000), CY, u >= 0x10000);
  }

  lemma ImmediateMask(s: State, op: word, reg: nat)
    requires op != 0x0300 && op != 0x0380 && Immediate(s, op, reg).Done?
    ensures Immediate(s, op, reg).s.st % 16 == s.st % 16
  {
    hide Set, CompareWord, AndW, OrW, Reg, Fetched, AddStatus;
    var r, i := Reg(s, reg), Fetched(s);
    AddMask(s.st, r, i);
    CompareMask(AddStatus(s.st, r, i), Low(r as int + i), 0);
    CompareMask(s.st, AndW(r, i), 0);
    CompareMask(s.st, OrW(r, i), 0);
    CompareMask(s.st, r, i);
  }

  lemma OperandKeeps(s: State, mode: int, reg: nat, isByte: bool)
    requires 0 <= mode < 4
    ensures var t := Operand(s, mode, reg, isByte).0;
            t.st == s.st && t.wp == s.wp && t.pc == if mode == SYM then Low(s.pc + 2) else s.pc
  {
  }

  lemma ReplaceMask(s: State, a: word, v: word, st: word)
    ensures Replace(s, a, v, st).st % 16 == st % 16 && ReplaceByTwo(s, a, v, st).st % 16 == st % 16
  {
    hide CompareWord, CompareByte;
    CompareMask(st, v, 0);
    CompareMask(st, v % 256, 0);
  }

  lemma ModifiedMask(s: State, op: word, a: word)
    requires Modified(s, op, a).Done?
    ensures Modified(s, op, a).s.st % 16 == s.st % 16
  {
    hide Set, Replace, ReplaceByTwo, Not, SignedByte, WriteW, ReadW, Low;
    var p := ReadW(s.mem, a);
    if op == 0x0740 {
      AbsMask(s.st, p == 0x8000, p >= 0x8000, SignedByte(p) > 0, if p >= 0x8000 then Low(0x10000 - p) else p);
    } else {
      forall v: word, st: word ensures Replace(s, a, v, st).st % 16 == st % 16 {
        ReplaceMask(s, a, v, st);
      }
      forall v: word, st: word ensures ReplaceByTwo(s, a, v, st).st % 16 == st % 16 {
        ReplaceMask(s, a, v, st);
      }
      forall x: bool, y: bool ensures Set(Set(s.st, CY, x), OV, y) % 16 == s.st % 16 {
        TwoMask(s.st, CY, x, OV, y);
      }
      forall x: bool, y: bool ensures Set(Set(s.st, OV, x), CY, y) % 16 == s.st % 16 {
        TwoMask(s.st, OV, x, CY, y);
      }
    }
  }

  lemma OneOperandMask(s0: State, op: word, mode: int, reg: nat)
    requires 0 <= mode < 4 && OneOperand(s0, op, mode, reg).Done?
    ensures OneOperand(s0, op, mode, reg).s.st % 16 == s0.st % 16
  {
    hide Modified, Operand, WriteW, ReadW;
    OperandKeeps(s0, mode, reg, false);
    var (s, a) := Operand(s0, mode, reg, false);
    if Modified(s, op, a).Done? {
      ModifiedMask(s, op, a);
    }
  }

  lemma AbsMask(st: word, a: bool, b: bool, c: bool, v: word)
    ensures Set(Set(Set(Set(Set(st, CY, a), OV, b), AGT, c), EQ, v == 0), LGT, v != 0) % 16 == st % 16
  {
    hide Set;
    TwoMask(st, CY, a, OV, b);
    TwoMask(Set(Set(st, CY, a), OV, b), AGT, c, EQ, v == 0);
    SetHas(Set(Set(Set(Set(st, CY, a), OV, b), AGT, c), EQ, v == 0), LGT, v != 0);
  }

  lemma ShiftMask(s: State, op: word, reg: nat, count: nat)
    requires count < 16 && ShiftReg(s, op, reg, count).Done?
    ensures ShiftReg(s, op, reg, count).s.st % 16 == s.st % 16
  {
    hide Set, CompareWord, ShiftResult, ShiftCarry, ShiftCount, Reg;
    var c := ShiftCount(s, count);
    var v := Reg(s, reg);
    var r := ShiftResult(op, v, c);
    TwoMask(s.st, CY, ShiftCarry(op, v, c), OV, (r >= 0x8000) != (v >= 0x8000));
    CompareMask(Set(s.st, CY, ShiftCarry(op, v, c)), r, 0);
    CompareMask(Set(Set(s.st, CY, ShiftCarry(op, v, c)), OV, (r >= 0x8000) != (v >= 0x8000)), r, 0);
  }

  lemma RegAndOperandMask(s0: State, op: word, dReg: nat, mode: int, reg: nat, cru: word)
    requires 0 <= mode < 4 && RegAndOperand(s0, op, dReg, mode, reg, cru).Done?
    ensures RegAndOperand(s0, op, dReg, mode, reg, cru).s.st % 16 == s0.st % 16
  {
    hide Set, CompareWord, Operand, AndW, XorW, Not, Reg, CruTransfer;
    OperandKeeps(s0, mode, reg, false);
    var (s, a) := Operand(s0, mode, reg, false);
    var v, d := ReadW(s.mem, a), Reg(s, dReg);
    CompareMask(s.st, AndW(v, d), v);
    CompareMask(s.st, AndW(v, Not(d)), v);
    CompareMask(s.st, XorW(d, v), 0);
    SetHas(s.st, OV, true);
    SetHas(s.st, OV, false);
    CruMask(s, op, dReg, a, cru);
  }

  lemma CruMask(s: State, op: word, count: nat, a: word, cru: word)
    ensures CruTransfer(s, op, count, a, cru).st % 16 == s.st % 16 && CruTransfer(s, op, count, a, cru).pc == s.pc
  {
    hide Set, OddParity, WriteB, WriteW, ReadB;
    forall b: bool ensures Set(s.st, OP, b) % 16 == s.st % 16 {
      SetHas(s.st, OP, b);
    }
  }

  lemma ResultMask(st: word, op: word, v: word, d: word)
    requires 0x4000 <= op
    ensures TwoOperandResult(st, op, v, d).1 % 16 == st % 16
  {
    hide Set, CompareWord, CompareByte, OddParity, AndW, OrW, Not;
    forall t: word, a: word, b: word ensures CompareWord(t, a, b) % 16 == t % 16 && CompareByte(t, a, b) % 16 == t % 16 {
      CompareMask(t, a, b);
    }
    forall t: word, b: bool ensures Set(t, OP, b) % 16 == t % 16 {
      SetHas(t, OP, b);
    }
    forall x: bool, y: bool ensures Set(Set(st, OV, x), CY, y) % 16 == st % 16 {
      TwoMask(st, OV, x, CY, y);
    }
  }

  lemma TwoOperandsMask(s0: State, op: word, dMode: int, dReg: nat, mode: int, reg: nat, isByte: bool)
    requires 0 <= mode < 4 && 0 <= dMode < 4 && 0x4000 <= op
    ensures TwoOperands(s0, op, dMode, dReg, mode, reg, isByte).s.st % 16 == s0.st % 16
  {
    hide Operand, Read, DestinationValue, TwoOperandResult, Store, StoreB;
    OperandKeeps(s0, mode, reg, isByte);
    var (s1, a) := Operand(s0, mode, reg, isByte);
    OperandKeeps(s1, dMode, dReg, isByte);
    var (s, da) := Operand(s1, dMode, dReg, isByte);
    ResultMask(s.st, op, Read(s1, a, isByte), DestinationValue(s, op, da, isByte));
  }

  /** No other instruction changes the interrupt mask. */
  lemma MaskKept(s: State, cru: word)
    requires Exec(s, cru).Done? && !LoadsMask(Fetched(s))
    ensures Exec(s, cru).s.st % 16 == s.st % 16
  {
    hide Immediate, OneOperand, ShiftReg, RegAndOperand, TwoOperands, Set;
    var data := Fetched(s);
    match KindOf(data)
    case Immed => ImmediateMask(Next(s), Opcode(data), SReg(data));
    case Single => OneOperandMask(Next(s), Opcode(data), SMode(data), SReg(data));
    case Shift => ShiftMask(Next(s), Opcode(data), SReg(data), data / 16 % 16);
    case Jump => SetHas(s.st, EQ, cru != 0);
    case Dual1 => RegAndOperandMask(Next(s), Opcode(data), DReg(data), SMode(data), SReg(data), cru);
    case Dual2 => TwoOperandsMask(Next(s), Opcode(data), DMode(data), DReg(data), SMode(data), SReg(data), data / 0x1000 % 2 == 1);
    case NoKind =>
  }

  // ----- runs of execute, with what the CRU and the interrupt controller say at each

  datatype Input = Input(cru: word, pending: bool)

  function Step(s: State, i: Input): Option<State> {
    match Exec(s, i.cru)
    case Done(t) => Some(Interrupt(t, i.pending))
    case _ => None
  }

  function Steps(s: State, ins: seq<Input>): Option<State>
    decreases |ins|
  {
    if ins == [] then Some(s)
    else match Step(s, ins[0])
         case Some(t) => Steps(t, ins[1..])
         case None => None
  }

  function Quiet(ins: seq<Input>): (qs: seq<Input>)
    ensures |qs| == |ins| && forall k :: 0 <= k < |ins| ==> qs[k] == Input(ins[k].cru, false)
  {
    seq(|ins|, k requires 0 <= k < |ins| => Input(ins[k].cru, false))
  }

  /** The run goes through and no instruction of it loads the mask. */
  ghost predicate NeverLoadsMask(s: State, ins: seq<Input>)
    decreases |ins|
  {
    ins == [] || (!LoadsMask(Fetched(s)) && Step(s, ins[0]).Some? && NeverLoadsMask(Step(s, ins[0]).value, ins[1..]))
  }

  lemma ClearedMask(st: word)
    ensures ClearMask(st) % 16 == 0
  {
  }

  /** An interrupt is accepted exactly when the mask is not zero and one is pending. It goes
      through vector 1, saves the whole context in the new workspace, and leaves mask 0. */
  lemma Accepts(s: State, pending: bool)
    ensures Interrupt(s, pending) != s <==> s.st % 16 != 0 && pending
    ensures s.st % 16 != 0 && pending ==>
              var t := Interrupt(s, pending);
              && t.st % 16 == 0 && t.wp == ReadW(s.mem, 4) && t.pc == ReadW(s.mem, 6)
              && Reg(t, 13) == s.wp && Reg(t, 14) == s.pc && Reg(t, 15) == s.st
  {
    hide WriteW;
    BlwpSaves(s, 4);
    ClearedMask(Blwp(s, 4).st);
    StatusApart(Blwp(s, 4), ClearMask(Blwp(s, 4).st));
  }

  /** After an interrupt is accepted no other is before LIMI or RTWP: the run is the same as with
      nothing pending. */
  lemma {:induction false} NoSecondInterrupt(s: State, ins: seq<Input>)
    requires s.st % 16 == 0 && NeverLoadsMask(s, ins)
    ensures Steps(s, ins).Some? && Steps(s, ins).value.st % 16 == 0
    ensures Steps(s, ins) == Steps(s, Quiet(ins))
    decreases |ins|
  {
    hide Exec, Blwp, LoadsMask, Fetched;
    if ins != [] {
      MaskKept(s, ins[0].cru);
      var t := Exec(s, ins[0].cru).s;
      assert Step(s, ins[0]) == Some(t) == Step(s, Quiet(ins)[0]);
      NoSecondInterrupt(t, ins[1..]);
      assert Quiet(ins)[1..] == Quiet(ins[1..]);
    } else {
      assert Quiet(ins) == [];
    }
  }

  // ----- context switches

  lemma BlwpSaves(s: State, addr: word)
    ensures var t := Blwp(s, addr);
            && t.wp == ReadW(s.mem, addr) && t.pc == ReadW(s.mem, Low(addr + 2)) && t.st == s.st
            && Reg(t, 13) == s.wp && Reg(t, 14) == s.pc && Reg(t, 15) == s.st
  {
    var wp := ReadW(s.mem, addr);
    RegsDiffer(wp, 13, 14);
    RegsDiffer(wp, 13, 15);
    RegsDiffer(wp, 14, 15);
  }

  /** The context a switch has to give back, and the workspace it is saved in. */
  datatype Frame = Frame(at: word, wp: word, pc: word, st: word)

  /** The words are still in R13, R14 and R15 of the workspace. */
  ghost predicate Held(m: Memory, f: Frame) {
    && ReadW(m, RegAt(f.at, 13)) == f.wp && ReadW(m, RegAt(f.at, 14)) == f.pc && ReadW(m, RegAt(f.at, 15)) == f.st
  }

  ghost predicate AllHeld(m: Memory, fs: seq<Frame>) {
    forall i :: 0 <= i < |fs| ==> Held(m, fs[i])
  }

  /** The two halves of execute that can switch contexts: an instruction, and an interrupt that
      is accepted after it. */
  datatype Half = Instruction(cru: word) | Accepted

  function HalfStep(s: State, h: Half): Option<State> {
    match h
    case Instruction(cru) => (match Exec(s, cru) case Done(t) => Some(t) case _ => None)
    case Accepted => if s.st % 16 == 0 then None else Some(Interrupt(s, true))
  }

  predicate IsBlwp(data: word) { KindOf(data) == Single && Opcode(data) == 0x0400 }

  predicate IsRtwp(data: word) { KindOf(data) == Immed && Opcode(data) == 0x0380 }

  predicate IsCall(s: State, h: Half) { h.Accepted? || IsBlwp(Fetched(s)) }

  predicate IsReturn(s: State, h: Half) { h.Instruction? && IsRtwp(Fetched(s)) }

  /** The state a switch interrupts: before an interrupt, or after BLWP has worked out its
      operand. */
  function Left(s: State, h: Half): State {
    if h.Accepted? then s else Operand(Next(s), SMode(Fetched(s)), SReg(Fetched(s)), false).0
  }

  /** The frame a switch pushes. */
  function Pushed(s: State, h: Half): Frame
    requires HalfStep(s, h).Some?
  {
    Frame(HalfStep(s, h).value.wp, Left(s, h).wp, Left(s, h).pc, Left(s, h).st)
  }

  /** Frames still open after one half. */
  function Track(s: State, fs: seq<Frame>, h: Half): seq<Frame>
    requires HalfStep(s, h).Some?
  {
    if IsCall(s, h) then fs + [Pushed(s, h)]
    else if IsReturn(s, h) && fs != [] then fs[..|fs| - 1] else fs
  }

  /** What the program has to keep to: no half overwrites a saved word of a frame that stays
      open, and a return is made in the workspace of the innermost frame, above depth low. */
  ghost predicate Disciplined(s: State, fs: seq<Frame>, hs: seq<Half>, low: nat)
    decreases |hs|
  {
    hs == []
    || (&& HalfStep(s, hs[0]).Some?
        && (IsReturn(s, hs[0]) ==> |fs| > low && s.wp == fs[|fs| - 1].at)
        && var t, gs := HalfStep(s, hs[0]).value, Track(s, fs, hs[0]);
           && AllHeld(t.mem, if IsCall(s, hs[0]) then fs else gs)
           && Disciplined(t, gs, hs[1..], low))
  }

  ghost function Ended(s: State, fs: seq<Frame>, hs: seq<Half>, low: nat): (State, seq<Frame>)
    requires Disciplined(s, fs, hs, low)
    decreases |hs|
  {
    if hs == [] then (s, fs) else Ended(HalfStep(s, hs[0]).value, Track(s, fs, hs[0]), hs[1..], low)
  }

  lemma BlwpExec(s: State, cru: word)
    requires IsBlwp(Fetched(s))
    ensures var l := Left(s, Instruction(cru));
            exists a: word :: Exec(s, cru) == Done(Blwp(l, a)) && l.wp == s.wp && l.st == s.st
  {
    var data := Fetched(s);
    OperandKeeps(Next(s), SMode(data), SReg(data), false);
    var a := Operand(Next(s), SMode(data), SReg(data), false).1;
    assert Exec(s, cru) == Done(Blwp(Left(s, Instruction(cru)), a));
  }

  /** A switch saves the context it leaves. */
  lemma CallHolds(s: State, h: Half)
    requires IsCall(s, h) && HalfStep(s, h).Some?
    ensures Held(HalfStep(s, h).value.mem, Pushed(s, h))
  {
    hide Blwp, Exec;
    if h.Accepted? {
      Accepts(s, true);
    } else {
      BlwpExec(s, h.cru);
      var l := Left(s, h);
      var a: word :| Exec(s, h.cru) == Done(Blwp(l, a)) && l.wp == s.wp && l.st == s.st;
      BlwpSaves(l, a);
    }
  }

  /** A return in an intact frame gives the saved context back. */
  lemma ReturnRestores(s: State, cru: word, f: Frame)
    requires IsRtwp(Fetched(s)) && Held(s.mem, f) && s.wp == f.at
    ensures Exec(s, cru).Done?
    ensures var t := Exec(s, cru).s; t.wp == f.wp && t.pc == f.pc && t.st == f.st && t.mem == s.mem
  {
  }

  /** Through any disciplined run the frames below its lowest return stay open and intact. */
  lemma {:induction false} FramesKept(s: State, fs: seq<Frame>, hs: seq<Half>, low: nat)
    requires Disciplined(s, fs, hs, low) && AllHeld(s.mem, fs) && |fs| >= low
    ensures var (t, gs) := Ended(s, fs, hs, low);
            AllHeld(t.mem, gs) && |gs| >= low && gs[..low] == fs[..low]
    decreases |hs|
  {
    hide HalfStep, IsCall, IsReturn, Held, Pushed;
    if hs != [] {
      var t, gs := HalfStep(s, hs[0]).value, Track(s, fs, hs[0]);
      if IsCall(s, hs[0]) {
        CallHolds(s, hs[0]);
      }
      assert gs[..low] == fs[..low];
      FramesKept(t, gs, hs[1..], low);
    }
  }

  /** Context switches nest, also around code that loads the workspace pointer itself. Whatever
      runs between a switch and its return, as long as it leaves the saved words alone, makes
      every return in the workspace of its switch and comes back to the same depth, the return
      ends with the workspace, program counter and status that the switch left. */
  lemma DisciplinedSwitchesNest(s: State, fs: seq<Frame>, h: Half, body: seq<Half>, cru: word)
    requires IsCall(s, h) && HalfStep(s, h).Some?
    requires var t := HalfStep(s, h).value;
             && AllHeld(t.mem, fs) && Disciplined(t, fs + [Pushed(s, h)], body, |fs| + 1)
             && var (u, gs) := Ended(t, fs + [Pushed(s, h)], body, |fs| + 1);
                |gs| == |fs| + 1 && IsRtwp(Fetched(u)) && u.wp == t.wp
    ensures var u := Ended(HalfStep(s, h).value, fs + [Pushed(s, h)], body, |fs| + 1).0;
            && Exec(u, cru).Done?
            && var r := Exec(u, cru).s;
               r.wp == Left(s, h).wp && r.pc == Left(s, h).pc && r.st == Left(s, h).st
  {
    hide HalfStep, IsCall, IsRtwp, Held, Disciplined, Ended, Exec, Left, Fetched;
    var t := HalfStep(s, h).value;
    var f := Pushed(s, h);
    CallHolds(s, h);
    var open := fs + [f];
    assert AllHeld(t.mem, open);
    FramesKept(t, open, body, |fs| + 1);
    var (u, gs) := Ended(t, open, body, |fs| + 1);
    assert gs == gs[..|fs| + 1] && open == open[..|fs| + 1];
    assert gs[|fs|] == f;
    ReturnRestores(u, cru, f);
  }

  // ----- runs that do not load the workspace pointer

  predicate LoadsWorkspace(data: word) { KindOf(data) == Immed && Opcode(data) == 0x02E0 }

  lemma ModifiedWp(s: State, op: word, a: word)
    requires Modified(s, op, a).Done?
    ensures Modified(s, op, a).s.wp == s.wp
  {
    hide Set, CompareWord, CompareByte, WriteW, WriteB, Not, SignedByte, Low;
  }

  lemma OneOperandWp(s0: State, op: word, mode: int, reg: nat)
    requires 0 <= mode < 4 && op != 0x0400 && OneOperand(s0, op, mode, reg).Done?
    ensures OneOperand(s0, op, mode, reg).s.wp == s0.wp
  {
    hide Modified, Operand, WriteW, ReadW;
    OperandKeeps(s0, mode, reg, false);
    var (s, a) := Operand(s0, mode, reg, false);
    if Modified(s, op, a).Done? {
      ModifiedWp(s, op, a);
    }
  }

  lemma RegAndOperandWp(s0: State, op: word, dReg: nat, mode: int, reg: nat, cru: word)
    requires 0 <= mode < 4 && RegAndOperand(s0, op, dReg, mode, reg, cru).Done?
    ensures RegAndOperand(s0, op, dReg, mode, reg, cru).s.wp == s0.wp
  {
    hide Set, CompareWord, Operand, AndW, XorW, Not, Reg, Parity, WriteW, WriteB;
    OperandKeeps(s0, mode, reg, false);
  }

  lemma TwoOperandsWp(s0: State, op: word, dMode: int, dReg: nat, mode: int, reg: nat, isByte: bool)
    requires 0 <= mode < 4 && 0 <= dMode < 4 && 0x4000 <= op
    ensures TwoOperands(s0, op, dMode, dReg, mode, reg, isByte).s.wp == s0.wp
  {
    hide Operand, Read, DestinationValue, TwoOperandResult, WriteW, WriteB;
    OperandKeeps(s0, mode, reg, isByte);
    OperandKeeps(Operand(s0, mode, reg, isByte).0, dMode, dReg, isByte);
  }

  /** LWPI, BLWP and RTWP are the only instructions that change the workspace pointer. */
  lemma WpKept(s: State, cru: word)
    requires Exec(s, cru).Done?
    requires !LoadsWorkspace(Fetched(s)) && !IsBlwp(Fetched(s)) && !IsRtwp(Fetched(s))
    ensures Exec(s, cru).s.wp == s.wp
  {
    hide OneOperand, RegAndOperand, TwoOperands, Set, CompareWord, ShiftResult, ShiftCarry, AddStatus, WriteW;
    var data := Fetched(s);
    match KindOf(data)
    case Immed =>
    case Single => OneOperandWp(Next(s), Opcode(data), SMode(data), SReg(data));
    case Shift =>
    case Jump =>
    case Dual1 => RegAndOperandWp(Next(s), Opcode(data), DReg(data), SMode(data), SReg(data), cru);
    case Dual2 =>
      TwoOperandsWp(Next(s), Opcode(data), DMode(data), DReg(data), SMode(data), SReg(data), data / 0x1000 % 2 == 1);
    case NoKind =>
  }

  /** The words R13, R14 and R15 of the frame's workspace did not change. */
  ghost predicate Untouched(m: Memory, m': Memory, f: Frame) {
    forall r :: 13 <= r <= 15 ==> ReadW(m', RegAt(f.at, r)) == ReadW(m, RegAt(f.at, r))
  }

  ghost predicate AllUntouched(m: Memory, m': Memory, fs: seq<Frame>) {
    forall i :: 0 <= i < |fs| ==> Untouched(m, m', fs[i])
  }

  /** A well-bracketed run: it goes through without LWPI, never returns from below depth low, and
      no half changes a saved word of a frame that stays open. */
  ghost predicate Bracketed(s: State, fs: seq<Frame>, hs: seq<Half>, low: nat)
    decreases |hs|
  {
    hs == []
    || (&& HalfStep(s, hs[0]).Some?
        && !(hs[0].Instruction? && LoadsWorkspace(Fetched(s)))
        && (IsReturn(s, hs[0]) ==> |fs| > low)
        && var t, gs := HalfStep(s, hs[0]).value, Track(s, fs, hs[0]);
           && AllUntouched(s.mem, t.mem, if IsCall(s, hs[0]) then fs else gs)
           && Bracketed(t, gs, hs[1..], low))
  }

  /** Each open switch was made in the workspace of the one before it, and the program runs in
      that of the last. */
  ghost predicate Nested(s: State, fs: seq<Frame>) {
    && fs != [] && s.wp == fs[|fs| - 1].at
    && forall i :: 0 < i < |fs| ==> fs[i].wp == fs[i - 1].at
  }

  lemma LeftWorkspace(s: State, h: Half)
    requires IsCall(s, h)
    ensures Left(s, h).wp == s.wp
  {
    if h.Instruction? {
      OperandKeeps(Next(s), SMode(Fetched(s)), SReg(Fetched(s)), false);
    }
  }

  /** One half keeps the chain of workspaces. */
  lemma HalfNested(s: State, fs: seq<Frame>, h: Half, low: nat)
    requires Nested(s, fs) && AllHeld(s.mem, fs) && |fs| >= low >= 1 && HalfStep(s, h).Some?
    requires !(h.Instruction? && LoadsWorkspace(Fetched(s))) && (IsReturn(s, h) ==> |fs| > low)
    ensures Nested(HalfStep(s, h).value, Track(s, fs, h)) && |Track(s, fs, h)| >= low
  {
    hide Exec, Interrupt, Left, IsBlwp, IsRtwp, LoadsWorkspace;
    if IsCall(s, h) {
      LeftWorkspace(s, h);
    } else if IsReturn(s, h) {
      ReturnRestores(s, h.cru, fs[|fs| - 1]);
    } else {
      WpKept(s, h.cru);
    }
  }

  lemma StillHeld(m: Memory, m': Memory, fs: seq<Frame>)
    requires AllHeld(m, fs) && AllUntouched(m, m', fs)
    ensures AllHeld(m', fs)
  {
    hide ReadW, RegAt;
    forall i | 0 <= i < |fs| ensures Held(m', fs[i]) {
      assert Held(m, fs[i]) && Untouched(m, m', fs[i]);
    }
  }

  /** A well-bracketed run returns in the right workspaces of itself, and ends in the chain. */
  lemma {:induction false} BracketedIsDisciplined(s: State, fs: seq<Frame>, hs: seq<Half>, low: nat)
    requires Bracketed(s, fs, hs, low) && Nested(s, fs) && AllHeld(s.mem, fs) && |fs| >= low >= 1
    ensures Disciplined(s, fs, hs, low)
    ensures Nested(Ended(s, fs, hs, low).0, Ended(s, fs, hs, low).1)
    decreases |hs|
  {
    hide HalfStep, Held, Pushed, Untouched, IsRtwp, IsBlwp, LoadsWorkspace, Fetched;
    if hs != [] {
      var t, gs := HalfStep(s, hs[0]).value, Track(s, fs, hs[0]);
      HalfNested(s, fs, hs[0], low);
      if IsCall(s, hs[0]) {
        StillHeld(s.mem, t.mem, fs);
        CallHolds(s, hs[0]);
      } else {
        StillHeld(s.mem, t.mem, gs);
      }
      BracketedIsDisciplined(t, gs, hs[1..], low);
    }
  }

  /** Context switches nest. After a BLWP or an accepted interrupt let any well-bracketed run
      follow, with inner switches and returns of its own, that leaves the saved words of the open
      frames alone. If it ends at its own depth before an RTWP, that RTWP gives back the
      workspace, program counter and status the switch left. */
  lemma SwitchesNest(s: State, h: Half, body: seq<Half>, cru: word)
    requires IsCall(s, h) && HalfStep(s, h).Some?
    requires Bracketed(HalfStep(s, h).value, [Pushed(s, h)], body, 1)
    ensures Disciplined(HalfStep(s, h).value, [Pushed(s, h)], body, 1)
    ensures var (u, gs) := Ended(HalfStep(s, h).value, [Pushed(s, h)], body, 1);
            |gs| == 1 && IsRtwp(Fetched(u)) ==>
              && Exec(u, cru).Done?
              && var r := Exec(u, cru).s;
                 r.wp == Left(s, h).wp && r.pc == Left(s, h).pc && r.st == Left(s, h).st
  {
    hide HalfStep, IsCall, IsRtwp, Held, Disciplined, Ended, Exec, Left, Fetched, Bracketed;
    var t, f := HalfStep(s, h).value, Pushed(s, h);
    CallHolds(s, h);
    assert AllHeld(t.mem, [f]);
    BracketedIsDisciplined(t, [f], body, 1);
    FramesKept(t, [f], body, 1);
    var (u, gs) := Ended(t, [f], body, 1);
    if |gs| == 1 && IsRtwp(Fetched(u)) {
      assert gs[..1] == gs && [f][..1] == [f];
      ReturnRestores(u, cru, f);
    }
  }

  /** One call of execute is one or two halves. */
  lemma StepIsHalves(s: State, i: Input)
    requires Step(s, i).Some?
    ensures var t := HalfStep(s, Instruction(i.cru));
            && t.Some?
            && Step(s, i) == if i.pending && t.value.st % 16 != 0 then HalfStep(t.value, Accepted) else t
  {
    hide Exec, Blwp;
  }
}
