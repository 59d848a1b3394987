/** The disassembler's idea of where instructions end, and that the CPU agrees. */
module Disassembler {
  import opened Bytes
  import opened Cpu
  import opened Contexts

  function OperandBytes(mode: int): nat { if mode == SYM then 2 else 0 }

  /** Bytes of parameters that preExec consumes after the instruction word. */
  function ParameterBytes(data: word): (n: nat)
    ensures n == 0 || n == 2 || n == 4
  {
    match KindOf(data)
    case Immed =>
      var op := Opcode(data);
      if op == 0x0200 || op == 0x0220 || op == 0x0240 || op == 0x0260 || op == 0x0280 || op == 0x02E0 || op == 0x0300 then 2 else 0
    case Single => OperandBytes(SMode(data))
    case Shift => 0
    case Jump => 0
    case Dual1 => OperandBytes(SMode(data))
    case Dual2 => OperandBytes(SMode(data)) + OperandBytes(DMode(data))
    case NoKind => 0
  }

  class Unasm {
    const covered: array<bool>
    var outputUncovered: bool
    var skipCurrent: bool

    ghost predicate Valid() {
      covered.Length == 0x8000
    }

    constructor ()
      ensures Valid() && fresh(covered) && !outputUncovered && forall k :: 0 <= k < 0x8000 ==> !covered[k]
    {
      covered := new bool[0x8000](_ => false);
      outputUncovered, skipCurrent := false, false;
    }

    /** The text goes to the listing; only the pointer's way is modelled. */
    method PrintOper(mode: int, pc: word) returns (pc': word)
      requires 0 <= mode < 4
      ensures pc' == Low(pc + OperandBytes(mode))
    {
      pc' := pc;
      if mode == SYM {
        pc' := Low(pc + 2);
      }
    }

    method PrintImmediate(op: word, pc: word) returns (pc': word)
      ensures pc' == Low(pc + if op == 0x0200 || op == 0x0220 || op == 0x0240 || op == 0x0260 || op == 0x0280
                                 || op == 0x02E0 || op == 0x0300 then 2 else 0)
    {
      var showReg, showOper, showData := true, true, true;
      if op == 0x02A0 || op == 0x02C0 {
        showData := false;
      } else if op == 0x02E0 || op == 0x0300 {
        showReg := false;
      } else if op != 0x0200 && op != 0x0220 && op != 0x0240 && op != 0x0260 && op != 0x0280 {
        showOper := false;
      }
      pc' := pc;
      if showOper && showData {
        pc' := Low(pc + 2);
      }
    }

    /** preExec: nothing is consumed at a place already covered. */
    method PreExec(start: word, data: word) returns (consumed: word)
      requires Valid()
      modifies this`skipCurrent, covered
      ensures consumed == if old(covered[start / 2]) then 0 else ParameterBytes(data)
      ensures !outputUncovered ==> covered[..] == old(covered[..])
    {
      if covered[start / 2] {
        skipCurrent := true;
        return 0;
      }
      if outputUncovered {
        covered[start / 2] := true;
        skipCurrent := false;
      }
      var pc := PrintParameters(start, data);
      consumed := Low(pc as int - start);
    }

    /** preExec's switch over the instruction's type. */
    method PrintParameters(start: word, data: word) returns (pc: word)
      ensures Low(pc as int - start) == ParameterBytes(data)
    {
      hide Opcode, SMode, DMode, Low, OperandBytes;
      Consumed(start, data);
      pc := start;
      match KindOf(data) {
        case Immed => pc := PrintImmediate(Opcode(data), pc);
        case Single => pc := PrintOper(SMode(data), pc);
        case Shift =>
          pc := PrintOper(NORMAL, pc);
          pc := PrintOper(NORMAL, pc);
        case Jump =>
        case Dual1 =>
          pc := PrintOper(SMode(data), pc);
          pc := PrintOper(NORMAL, pc);
        case Dual2 =>
          pc := PrintOper(SMode(data), pc);
          pc := PrintOper(DMode(data), pc);
        case NoKind =>
      }
    }
  }

  lemma LowTwice(start: word, a: nat, b: nat)
    requires a + b < 0x10000
    ensures Low(start as int - start) == 0 && Low(Low(start + a) as int - start) == a
    ensures Low(Low(Low(start + a) + b) as int - start) == a + b
  {
  }

  /** How far each way of printing the parameters takes the pointer. */
  lemma Consumed(start: word, data: word)
    ensures Low(start as int - start) == 0
    ensures Low(Low(start + ParameterBytes(data)) as int - start) == ParameterBytes(data)
    ensures OperandBytes(NORMAL) == 0 && OperandBytes(SMode(data)) <= 2 && OperandBytes(DMode(data)) <= 2
    ensures Low(Low(Low(start + OperandBytes(NORMAL)) + OperandBytes(NORMAL)) as int - start) == 0
    ensures Low(Low(Low(start + OperandBytes(SMode(data))) + OperandBytes(NORMAL)) as int - start) == OperandBytes(SMode(data))
    ensures Low(Low(Low(start + OperandBytes(SMode(data))) + OperandBytes(DMode(data))) as int - start)
            == OperandBytes(SMode(data)) + OperandBytes(DMode(data))
  {
    hide ParameterBytes, SMode, DMode, Low;
    LowTwice(start, ParameterBytes(data), 0);
    LowTwice(start, 0, 0);
    LowTwice(start, OperandBytes(SMode(data)), 0);
    LowTwice(start, OperandBytes(SMode(data)), OperandBytes(DMode(data)));
  }

  // ----- the linear sweep

  function NextBoundary(m: Memory, pc: word): word { Low(pc + 2 + ParameterBytes(ReadW(m, pc))) }

  /** The first n addresses the sweep lists. */
  function Boundaries(m: Memory, pc: word, n: nat): (bs: seq<word>)
    ensures |bs| == n
    decreases n
  {
    if n == 0 then [] else [pc] + Boundaries(m, NextBoundary(m, pc), n - 1)
  }

  /** Where the sweep is after n instructions. */
  function BoundaryAfter(m: Memory, pc: word, n: nat): word
    decreases n
  {
    if n == 0 then pc else BoundaryAfter(m, NextBoundary(m, pc), n - 1)
  }

  lemma {:induction false} OneMoreBoundary(m: Memory, pc: word, n: nat)
    ensures Boundaries(m, pc, n + 1) == Boundaries(m, pc, n) + [BoundaryAfter(m, pc, n)]
    ensures BoundaryAfter(m, pc, n + 1) == NextBoundary(m, BoundaryAfter(m, pc, n))
    decreases n
  {
    hide NextBoundary;
    if n > 0 {
      OneMoreBoundary(m, NextBoundary(m, pc), n - 1);
    }
  }

  /** The sweep from addr comes to the end of the image, or past it. */
  ghost predicate Ends(m: Memory, addr: word, end: nat) {
    exists n :: EndsAt(m, addr, end, n)
  }

  ghost predicate EndsAt(m: Memory, addr: word, end: nat, n: nat) { BoundaryAfter(m, addr, n) >= end }

  lemma {:induction false} BoundaryListed(m: Memory, pc: word, n: nat, k: nat)
    requires k < n
    ensures Boundaries(m, pc, n)[k] == BoundaryAfter(m, pc, k)
    decreases n
  {
    hide NextBoundary;
    if k > 0 {
      BoundaryListed(m, NextBoundary(m, pc), n - 1, k - 1);
    }
  }

  /** An image that stays clear of the last five bytes of the address space is swept to its end;
      one that reaches the end of the address space never is, for there the 16-bit counter wraps
      round below it. */
  lemma EndsUnlessAtTop(m: Memory, addr: word, end: nat)
    ensures end <= 0xfffa ==> Ends(m, addr, end)
    ensures end >= 0x10000 ==> !Ends(m, addr, end)
  {
    if end <= 0xfffa {
      var n := ComesTo(m, addr, end);
      assert EndsAt(m, addr, end, n);
    }
  }

  lemma {:induction false} ComesTo(m: Memory, addr: word, end: nat) returns (n: nat)
    requires end <= 0xfffa
    ensures BoundaryAfter(m, addr, n) >= end
    decreases 0x10000 - addr
  {
    hide ParameterBytes;
    if addr >= end {
      n := 0;
    } else {
      n := ComesTo(m, NextBoundary(m, addr), end);
      n := n + 1;
    }
  }

  /** An 8K image at the top of the address space is listed for ever. */
  lemma TopPageNeverEnds(m: Memory)
    ensures !Ends(m, 0xE000, 0xE000 + 0x2000)
  {
    EndsUnlessAtTop(m, 0xE000, 0xE000 + 0x2000);
  }

  /** The loop of mltt-disasm, for every image whose sweep ends. */
  method Sweep(mem: Memory, addr: word, len: nat) returns (lines: seq<word>)
    requires Ends(mem, addr, addr + len)
    ensures lines == Boundaries(mem, addr, |lines|)
    ensures forall k :: 0 <= k < |lines| ==> lines[k] < addr + len
    ensures BoundaryAfter(mem, addr, |lines|) >= addr + len
  {
    hide ParameterBytes, Low, ReadW;
    var unasm := new Unasm();
    var pc := addr;
    lines := [];
    ghost var n: nat :| EndsAt(mem, addr, addr + len, n);
    while pc < addr + len
      invariant unasm.Valid() && !unasm.outputUncovered && fresh(unasm) && fresh(unasm.covered)
      invariant forall k :: 0 <= k < 0x8000 ==> !unasm.covered[k]
      invariant lines == Boundaries(mem, addr, |lines|) && pc == BoundaryAfter(mem, addr, |lines|)
      invariant forall k :: 0 <= k < |lines| ==> lines[k] < addr + len
      invariant |lines| <= n
      decreases n - |lines|
    {
      OneMoreBoundary(mem, addr, |lines|);
      lines := lines + [pc];
      if n < |lines| {
        BoundaryListed(mem, addr, |lines|, n);
      }
      var data := ReadW(mem, pc);
      StepTwice(pc, ParameterBytes(data));
      pc := Low(pc + 2);
      var paramWords := unasm.PreExec(pc, data);
      pc := SkipParameters(pc, paramWords);
    }
  }

  lemma StepTwice(pc: word, n: nat)
    ensures Low(Low(pc + 2) + n) == Low(pc + 2 + n)
  {
  }

  /** The inner loop, which prints the parameters. */
  method SkipParameters(start: word, words: nat) returns (pc: word)
    requires words % 2 == 0
    ensures pc == Low(start + words)
  {
    pc := start;
    var paramWords := words;
    while paramWords != 0
      invariant paramWords % 2 == 0 && Low(pc + paramWords) == Low(start + words)
      decreases paramWords
    {
      StepTwice(pc, paramWords - 2);
      paramWords := paramWords - 2;
      pc := Low(pc + 2);
    }
  }

  // ----- the CPU agrees

  /** The instruction sends the program elsewhere. */
  predicate Transfers(s: State) {
    var data := Fetched(s);
    || (KindOf(data) == Single && (Opcode(data) == 0x0400 || Opcode(data) == 0x0440 || Opcode(data) == 0x0680))
    || (KindOf(data) == Immed && Opcode(data) == 0x0380)
    || (KindOf(data) == Jump && Opcode(data) < 0x1C00 && Taken(Opcode(data), s.st))
  }

  lemma OneOperandPc(s0: State, op: word, mode: int, reg: nat)
    requires 0 <= mode < 4 && OneOperand(s0, op, mode, reg).Done? && op != 0x0400 && op != 0x0440 && op != 0x0680
    ensures OneOperand(s0, op, mode, reg).s.pc == Low(s0.pc + OperandBytes(mode))
  {
    hide Modified, Operand, WriteW, ReadW;
    OperandKeeps(s0, mode, reg, false);
    var (s, a) := Operand(s0, mode, reg, false);
    if Modified(s, op, a).Done? {
      ModifiedPc(s, op, a);
    }
  }

  lemma ModifiedPc(s: State, op: word, a: word)
    requires Modified(s, op, a).Done?
    ensures Modified(s, op, a).s.pc == s.pc
  {
    hide Set, CompareWord, CompareByte, Not, SignedByte, WriteW, WriteB, ReadW;
  }

  lemma RegAndOperandPc(s0: State, op: word, dReg: nat, mode: int, reg: nat, cru: word)
    requires 0 <= mode < 4 && RegAndOperand(s0, op, dReg, mode, reg, cru).Done?
    ensures RegAndOperand(s0, op, dReg, mode, reg, cru).s.pc == Low(s0.pc + OperandBytes(mode))
  {
    hide Set, CompareWord, Operand, AndW, XorW, Not, WriteW, ReadW, CruTransfer;
    OperandKeeps(s0, mode, reg, false);
    var (s, a) := Operand(s0, mode, reg, false);
    CruMask(s, op, dReg, a, cru);
  }

  lemma TwoOperandsPc(s0: State, op: word, dMode: int, dReg: nat, mode: int, reg: nat, isByte: bool)
    requires 0 <= mode < 4 && 0 <= dMode < 4 && 0x4000 <= op
    ensures TwoOperands(s0, op, dMode, dReg, mode, reg, isByte).s.pc == Low(s0.pc + OperandBytes(mode) + OperandBytes(dMode))
  {
    hide Operand, Read, DestinationValue, TwoOperandResult, WriteW, WriteB;
    OperandKeeps(s0, mode, reg, isByte);
    var s1 := Operand(s0, mode, reg, isByte).0;
    OperandKeeps(s1, dMode, dReg, isByte);
  }

  lemma Dual2Opcode(data: word)
    requires KindOf(data) == Dual2
    ensures Opcode(data) >= 0x4000
  {
  }

  lemma ImmediatePc(s: State, data: word, reg: nat)
    requires KindOf(data) == Immed && Immediate(s, Opcode(data), reg).Done? && Opcode(data) != 0x0380
    ensures Immediate(s, Opcode(data), reg).s.pc == Low(s.pc + ParameterBytes(data))
  {
    hide Opcode, Set, CompareWord, AndW, OrW, WriteW, AddStatus, Reg, ClearMask;
  }

  lemma ShiftPc(s: State, op: word, reg: nat, count: nat)
    requires count < 16 && ShiftReg(s, op, reg, count).Done?
    ensures ShiftReg(s, op, reg, count).s.pc == s.pc
  {
    hide Set, CompareWord, WriteW, ShiftResult, ShiftCarry, ShiftCount, Reg;
  }

  /** For every instruction that is accepted and does not transfer control, in every addressing
      mode, the CPU fetches exactly the words that the disassembler skips. */
  lemma FetchAgrees(s: State, cru: word)
    requires Exec(s, cru).Done? && !Transfers(s)
    ensures Exec(s, cru).s.pc == Low(s.pc + 2 + ParameterBytes(Fetched(s)))
  {
    hide OneOperand, RegAndOperand, TwoOperands, Immediate, ShiftReg, Set, Taken, Opcode, SMode, DMode, SReg, DReg,
      OperandBytes;
    var data := Fetched(s);
    match KindOf(data)
    case Immed => ImmediatePc(Next(s), data, SReg(data));
    case Single => OneOperandPc(Next(s), Opcode(data), SMode(data), SReg(data));
    case Shift => ShiftPc(Next(s), Opcode(data), SReg(data), data / 16 % 16);
    case Jump =>
    case Dual1 => RegAndOperandPc(Next(s), Opcode(data), DReg(data), SMode(data), SReg(data), cru);
    case Dual2 =>
      Dual2Opcode(data);
      TwoOperandsPc(Next(s), Opcode(data), DMode(data), DReg(data), SMode(data), SReg(data), data / 0x1000 % 2 == 1);
    case NoKind =>
  }

  /** A run of accepted, uninterrupted instructions that stay in line and find the code of the
      image m where they execute it. */
  ghost predicate Straight(m: Memory, s: State, crus: seq<word>)
    decreases |crus|
  {
    crus == []
    || (&& Exec(s, crus[0]).Done? && !Transfers(s) && Fetched(s) == ReadW(m, s.pc)
        && Straight(m, Exec(s, crus[0]).s, crus[1..]))
  }

  /** The program counter at each instruction of the run. */
  function PcTrace(s: State, crus: seq<word>): seq<word>
    decreases |crus|
  {
    if crus == [] || !Exec(s, crus[0]).Done? then [] else [s.pc] + PcTrace(Exec(s, crus[0]).s, crus[1..])
  }

  /** The boundaries the linear sweep finds are the addresses the CPU executes at. */
  lemma {:induction false} SweepMatchesTrace(m: Memory, s: State, crus: seq<word>)
    requires Straight(m, s, crus)
    ensures PcTrace(s, crus) == Boundaries(m, s.pc, |crus|)
    decreases |crus|
  {
    hide Exec, Transfers, ParameterBytes, Fetched, ReadW;
    if crus != [] {
      FetchAgrees(s, crus[0]);
      SweepMatchesTrace(m, Exec(s, crus[0]).s, crus[1..]);
    }
  }
}
