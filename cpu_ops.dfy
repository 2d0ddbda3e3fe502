/** The instruction handlers of the execution engine (i8088.py) that have a body
    in the source, as functions from (registers, memory) to (registers, memory,
    cycles), together with the step-level bookkeeping of Tick.  Each handler is
    split into the decoding of its instruction bytes and an `Exec` function over
    the decoded operands, so that what an instruction does can be stated for any
    operand.  The processor object (module I8088) carries these out step by
    step. */
module CpuOps {
  import opened Bits
  import opened State8088
  import opened CpuMemory
  import opened Alu
  import opened CpuCore

  /** What a handler leaves: registers, memory and the cycles it reports. */
  datatype Exec = Exec(r: Regs, m: Mem, cycles: int)

  /** The three fields of a mod/rm byte: mod (bits 7-6), reg (bits 5-3) and
      rm (bits 2-0). */
  datatype ModRm = ModRm(mod: nat, reg: nat, rm: nat)

  function DecodeModRm(b: int): (d: ModRm)
    requires IsByte(b)
    ensures d.mod < 4 && d.reg < 8 && d.rm < 8
    ensures b == d.mod * 64 + d.reg * 8 + d.rm
  {
    ModRm(b / 64, (b / 8) % 8, b % 8)
  }

  /** An operand as GetRegisterMem hands it over: in memory exactly when mod < 3. */
  predicate OperandFor(op: Operand, mod: nat, w: bool) {
    (op.aValid <==> mod < 3) && Fits(w, op.v)
  }

  /** After a write-back of v to the operand op (register rm or a memory cell),
      that location holds v and nothing else has changed. */
  ghost predicate Wrote(r: Regs, m: Mem, r': Regs, m': Mem, rm: nat, op: Operand, w: bool, v: int)
    requires r.Valid() && r'.Valid() && ValidMem(m') && rm < 8
  {
    if op.aValid then r' == r && Load(m', op.seg, op.addr, w) == v
    else m' == m && r' == r.(gp := r'.gp) && GetReg(r'.gp, rm, w) == v
         && (forall j :: 0 <= j < 8 && j != rm ==> GetReg(r'.gp, j, w) == GetReg(r.gp, j, w))
  }

  /** UpdateRegisterMem writes exactly the operand it was given. */
  lemma {:induction false} WrittenBack(r: Regs, m: Mem, rm: nat, mod: nat, op: Operand, w: bool, v: int)
    requires Ok(r, m) && rm < 8 && mod < 4 && Fits(w, v) && OperandFor(op, mod, w)
    ensures var (r', m', _) := UpdateRegisterMem(r, m, rm, mod, op, w, v);
            Wrote(r, m, r', m', rm, op, w, v)
  {
    if !op.aValid {
      PutGetReg(r.gp, rm, w, v);
    }
  }

  // ---------------------------------------------------------------- Jcc

  /** Op_Jxx (0x60-0x7F): a short jump taken on the condition of the opcode. */
  function Jxx(r: Regs, m: Mem, opcode: int): (e: Exec)
    requires Ok(r, m) && 0x60 <= opcode < 0x80
    ensures Ok(e.r, e.m) && e.m == m && e.r == r.(ip := e.r.ip)
    ensures var next := (r.ip + 1) % 0x10000;
            var disp := ReadMemByte(m, r.seg.cs, r.ip);
            if JccTaken(opcode, r.flags) then e.r.ip == ShortTarget(next, disp) && e.cycles == 16
            else e.r.ip == next && e.cycles == 4
  {
    var (r1, disp) := PcByte(r, m);
    if JccTaken(opcode, r1.flags) then Exec(r1.(ip := ShortTarget(r1.ip, disp)), m, 16)
    else Exec(r1, m, 4)
  }

  // ---------------------------------------------------------------- LOOP

  /** Op_LOOP (0xE0 LOOPNZ, 0xE1 LOOPZ, 0xE2 LOOP) with CX counted down modulo
      0x10000 (see Alu.LoopStep for the unmasked form of the text). */
  function Loop(r: Regs, m: Mem, opcode: int): (e: Exec)
    requires Ok(r, m) && 0xe0 <= opcode <= 0xe2
    ensures Ok(e.r, e.m) && e.m == m
    ensures e.r == r.(gp := DecCX(r.gp), ip := e.r.ip)
  {
    var (r1, disp) := PcByte(r, m);
    var g := DecCX(r1.gp);
    if !CxIsZero(g) && LoopCondition(opcode, r1.flags[FLAG_Z]) then
      Exec(r1.(gp := g, ip := ShortTarget(r1.ip, disp)), m, 8)
    else Exec(r1.(gp := g), m, 4)
  }

  /** LOOP decrements CX and jumps exactly when LoopStep says so: when the new CX
      is non-zero and the Z condition of the opcode holds. */
  lemma {:induction false} LoopMeaning(r: Regs, m: Mem, opcode: int)
    requires Ok(r, m) && 0xe0 <= opcode <= 0xe2
    ensures var e := Loop(r, m, opcode);
            var step := LoopStep(r.gp.CX(), opcode, r.flags[FLAG_Z]);
            var next := (r.ip + 1) % 0x10000;
            && e.r.gp.CX() == step.0
            && e.r.ip == (if step.1 then ShortTarget(next, ReadMemByte(m, r.seg.cs, r.ip)) else next)
            && e.cycles == (if step.1 then 8 else 4)
  {
    DecCXMeaning(r.gp);
  }

  // ---------------------------------------------------------------- INC / DEC

  /** Op_INC_DEC (0x40-0x4F): INC (0x40-0x47) or DEC (0x48-0x4F) of the word
      register (opcode - 0x40) & 7. */
  function IncDecOp(r: Regs, m: Mem, opcode: int): (e: Exec)
    requires Ok(r, m) && 0x40 <= opcode < 0x50
    ensures Ok(e.r, e.m) && e.m == m && e.cycles == 3
    ensures e.r == r.(gp := e.r.gp, flags := e.r.flags)
  {
    var reg := opcode % 8;
    var (v, f) := IncDec(r.flags, GetReg(r.gp, reg, true), opcode >= 0x48);
    Exec(r.(gp := PutReg(r.gp, reg, true, v), flags := f), m, 3)
  }

  /** INC/DEC change only their register, by one modulo 0x10000, and set the
      flags by the IncDec rule (C kept). */
  lemma {:induction false} IncDecOpMeaning(r: Regs, m: Mem, opcode: int)
    requires Ok(r, m) && 0x40 <= opcode < 0x50
    ensures var e := IncDecOp(r, m, opcode);
            var reg := opcode % 8;
            var old16 := GetReg(r.gp, reg, true);
            && GetReg(e.r.gp, reg, true) == IncDecValue(old16, opcode >= 0x48)
            && (forall j :: 0 <= j < 8 && j != reg ==> GetReg(e.r.gp, j, true) == GetReg(r.gp, j, true))
            && e.r.flags == IncDec(r.flags, old16, opcode >= 0x48).1
  {
    var reg := opcode % 8;
    var (v, f) := IncDec(r.flags, GetReg(r.gp, reg, true), opcode >= 0x48);
    PutGetReg(r.gp, reg, true, v);
  }

  /** DEC of a register right after INC of the same register (and INC after DEC)
      gives every word register its old value back. */
  lemma {:induction false} IncDecOpRestores(r: Regs, m: Mem, reg: nat, first: int)
    requires Ok(r, m) && reg < 8 && (first == 0x40 + reg || first == 0x48 + reg)
    ensures var e1 := IncDecOp(r, m, first);
            var second := if first < 0x48 then first + 8 else first - 8;
            var e2 := IncDecOp(e1.r, e1.m, second);
            forall j :: 0 <= j < 8 ==> GetReg(e2.r.gp, j, true) == GetReg(r.gp, j, true)
  {
    var e1 := IncDecOp(r, m, first);
    var second := if first < 0x48 then first + 8 else first - 8;
    var e2 := IncDecOp(e1.r, e1.m, second);
    var v := GetReg(r.gp, reg, true);
    IncDecOpAt(r, m, first, reg);
    IncDecOpAt(e1.r, e1.m, second, reg);
    IncDecBack(v, first >= 0x48, second >= 0x48);
    forall j | 0 <= j < 8
      ensures GetReg(e2.r.gp, j, true) == GetReg(r.gp, j, true)
    {
    }
  }

  /** INC then DEC, or DEC then INC, gives the value back. */
  lemma IncDecBack(v: int, dec1: bool, dec2: bool)
    requires IsWord(v) && dec1 != dec2
    ensures IncDecValue(IncDecValue(v, dec1), dec2) == v
  {
    IncDecInverse(v);
  }

  /** IncDecOpMeaning for the opcode of register reg. */
  lemma IncDecOpAt(r: Regs, m: Mem, opcode: int, reg: nat)
    requires Ok(r, m) && reg < 8 && (opcode == 0x40 + reg || opcode == 0x48 + reg)
    ensures var e := IncDecOp(r, m, opcode);
            && GetReg(e.r.gp, reg, true) == IncDecValue(GetReg(r.gp, reg, true), opcode >= 0x48)
            && (forall j :: 0 <= j < 8 && j != reg ==> GetReg(e.r.gp, j, true) == GetReg(r.gp, j, true))
  {
    assert opcode % 8 == reg;
    IncDecOpMeaning(r, m, opcode);
  }

  // ---------------------------------------------------------------- XCHG AX

  /** Op_XCHG_AX (0x91-0x97): exchange AX with word register opcode & 7. */
  function XchgAx(r: Regs, m: Mem, opcode: int): (e: Exec)
    requires Ok(r, m) && 0x91 <= opcode <= 0x97
    ensures Ok(e.r, e.m) && e.m == m && e.cycles == 3 && e.r == r.(gp := e.r.gp)
  {
    var reg := opcode % 8;
    var v := GetReg(r.gp, reg, true);
    var oldAx := r.gp.AX();
    Exec(r.(gp := PutReg(PutReg(r.gp, 0, true, v), reg, true, oldAx)), m, 3)
  }

  /** XCHG AX,reg swaps the two registers and leaves the other six alone. */
  lemma {:induction false} XchgSwaps(r: Regs, m: Mem, opcode: int)
    requires Ok(r, m) && 0x91 <= opcode <= 0x97
    ensures var g := XchgAx(r, m, opcode).r.gp;
            var reg := opcode % 8;
            && GetReg(g, 0, true) == GetReg(r.gp, reg, true)
            && GetReg(g, reg, true) == GetReg(r.gp, 0, true)
            && forall j :: 0 < j < 8 && j != reg ==> GetReg(g, j, true) == GetReg(r.gp, j, true)
  {
    var reg := opcode % 8;
    var g1 := PutReg(r.gp, 0, true, GetReg(r.gp, reg, true));
    PutGetReg(r.gp, 0, true, GetReg(r.gp, reg, true));
    PutGetReg(g1, reg, true, r.gp.AX());
  }

  /** Exchanging twice restores every word register. */
  lemma {:induction false} XchgTwice(r: Regs, m: Mem, opcode: int)
    requires Ok(r, m) && 0x91 <= opcode <= 0x97
    ensures var e1 := XchgAx(r, m, opcode);
            var e2 := XchgAx(e1.r, e1.m, opcode);
            forall j :: 0 <= j < 8 ==> GetReg(e2.r.gp, j, true) == GetReg(r.gp, j, true)
  {
    var e1 := XchgAx(r, m, opcode);
    XchgSwaps(r, m, opcode);
    XchgSwaps(e1.r, e1.m, opcode);
  }

  // ---------------------------------------------------------------- group 1

  /** The immediate of opcode 0x83: a byte whose sign is extended to a word. */
  function SignExtend8(b: int): (r: int)
    requires IsByte(b)
    ensures IsWord(r) && Low8(r) == b
    ensures ToSigned16(r) == ToSigned8(b)
  {
    if b >= 0x80 then b + 0xff00 else b
  }

  /** The flags group-1 function fn leaves: the logic rule for OR, AND and XOR,
      the add/sub rule (with the carry for ADC and SBB) for the rest. */
  function Group1Flags(f: seq<bool>, fn: nat, word: bool, v: int, imm: int): (r: seq<bool>)
    requires IsFlags(f) && fn < 8 && Fits(word, v) && Fits(word, imm)
    ensures IsFlags(r)
  {
    var c := f[FLAG_C];
    var res := Group1Result(fn, v, imm, c);
    if Group1IsLogic(fn) then
      Group1LogicInRange(fn, v, imm, c, word);
      LogicFlags(f, word, res)
    else AddSubFlags(f, word, v, imm, res, Group1IsSub(fn), Group1UsesCarry(fn) && c)
  }

  /** Op_CMP_OR_XOR_etc after decoding: function d.reg of group 1 (ADD OR ADC SBB
      AND SUB XOR CMP) on the operand op and the immediate imm. */
  function Group1Exec(r: Regs, m: Mem, d: ModRm, word: bool, op: Operand, imm: int): (e: Exec)
    requires Ok(r, m) && d.mod < 4 && d.reg < 8 && d.rm < 8 && OperandFor(op, d.mod, word) && Fits(word, imm)
    ensures Ok(e.r, e.m)
    ensures e.r.clock == r.clock
  {
    var r1 := r.(flags := Group1Flags(r.flags, d.reg, word, op.v, imm));
    if d.reg == 7 then Exec(r1, m, 0)
    else
      var (r2, m2, pc) := UpdateRegisterMem(r1, m, d.rm, d.mod, op, word, Mask(word, Group1Result(d.reg, op.v, imm, r.flags[FLAG_C])));
      Exec(r2, m2, pc)
  }

  /** Every function but CMP writes its result, cut to the operand width, back to
      the operand it read; CMP changes only the flags. */
  lemma {:induction false} Group1ExecMeaning(r: Regs, m: Mem, d: ModRm, word: bool, op: Operand, imm: int)
    requires Ok(r, m) && d.mod < 4 && d.reg < 8 && d.rm < 8 && OperandFor(op, d.mod, word) && Fits(word, imm)
    ensures var e := Group1Exec(r, m, d, word, op, imm);
            var res := Group1Result(d.reg, op.v, imm, r.flags[FLAG_C]);
            && e.r.flags == Group1Flags(r.flags, d.reg, word, op.v, imm)
            && (d.reg == 7 ==> e.r == r.(flags := e.r.flags) && e.m == m && e.cycles == 0)
            && (d.reg != 7 ==> Wrote(r.(flags := e.r.flags), m, e.r, e.m, d.rm, op, word, Mask(word, res)))
  {
    if d.reg != 7 {
      var r1 := r.(flags := Group1Flags(r.flags, d.reg, word, op.v, imm));
      WrittenBack(r1, m, d.rm, d.mod, op, word, Mask(word, Group1Result(d.reg, op.v, imm, r.flags[FLAG_C])));
    }
  }

  /** Op_CMP_OR_XOR_etc (0x80-0x83): mod/rm operand, then the immediate: a byte
      (0x80, 0x82), a word (0x81) or a sign-extended byte (0x83). */
  function Group1(r: Regs, m: Mem, opcode: int): (e: Exec)
    requires Ok(r, m) && 0x80 <= opcode <= 0x83
    ensures Ok(e.r, e.m)
    ensures e.r.clock == r.clock
  {
    var (r1, b) := PcByte(r, m);
    var d := DecodeModRm(b);
    var word := opcode == 0x81 || opcode == 0x83;
    var (r2, op) := RegisterMem(r1, m, d.rm, d.mod, word);
    var (r3, imm) := if opcode == 0x81 then PcWord(r2, m) else PcByte(r2, m);
    var e := Group1Exec(r3, m, d, word, op, if opcode == 0x83 then SignExtend8(imm) else imm);
    e.(cycles := 3 + op.cycles + e.cycles)
  }

  /** SUB and CMP compute the same flags: Z says the operands were equal and C
      that the immediate was the larger; SUB stores the difference modulo the
      operand width, CMP stores nothing. */
  lemma {:induction false} CmpIsSubWithoutStore(r: Regs, m: Mem, d: ModRm, word: bool, op: Operand, imm: int)
    requires Ok(r, m) && d.mod < 4 && d.reg == 5 && d.rm < 8 && OperandFor(op, d.mod, word) && Fits(word, imm)
    ensures var sub := Group1Exec(r, m, d, word, op, imm);
            var cmp := Group1Exec(r, m, d.(reg := 7), word, op, imm);
            && cmp.r == r.(flags := sub.r.flags) && cmp.m == m
            && Wrote(r.(flags := sub.r.flags), m, sub.r, sub.m, d.rm, op, word, Mask(word, op.v - imm))
            && (sub.r.flags[FLAG_Z] <==> op.v == imm)
            && (sub.r.flags[FLAG_C] <==> op.v < imm)
  {
    SubCmpFlags(r.flags, word, op.v, imm);
    Group1ExecMeaning(r, m, d, word, op, imm);
    Group1ExecMeaning(r, m, d.(reg := 7), word, op, imm);
    SubCompares(r.flags, word, op.v, imm);
  }

  /** SUB (function 5) and CMP (function 7) set the flags of the difference. */
  lemma SubCmpFlags(f: seq<bool>, word: bool, v: int, imm: int)
    requires IsFlags(f) && Fits(word, v) && Fits(word, imm)
    ensures Group1Flags(f, 5, word, v, imm) == AddSubFlags(f, word, v, imm, v - imm, true, false)
    ensures Group1Flags(f, 7, word, v, imm) == AddSubFlags(f, word, v, imm, v - imm, true, false)
  {
    assert Group1Result(5, v, imm, f[FLAG_C]) == v - imm;
    assert Group1Result(7, v, imm, f[FLAG_C]) == v - imm;
  }

  /** The flags of a subtraction without borrow-in compare its operands: Z
      for equal, C for below. */
  lemma SubCompares(f: seq<bool>, word: bool, a: int, b: int)
    requires IsFlags(f) && Fits(word, a) && Fits(word, b)
    ensures var g := AddSubFlags(f, word, a, b, a - b, true, false);
            && (g[FLAG_Z] <==> a == b) && (g[FLAG_C] <==> a < b)
  {
    SubBorrowMeaning(f, word, a, b, false);
    var w := Width(word);
    assert -w < a - b < w;
    assert (a - b) % w == 0 <==> a - b == 0;
  }

  // ---------------------------------------------------------------- ADD SUB ADC SBB CMP

  /** The opcodes Op_ADD_SUB_ADC_SBC serves: 00-03 ADD, 10-13 ADC, 18-1B SBB,
      28-2B SUB, 38-3B CMP (bit 0: word, bit 1: the register is the destination). */
  predicate IsAddSubOpcode(opcode: int) {
    (0x00 <= opcode <= 0x03) || (0x10 <= opcode <= 0x13) || (0x18 <= opcode <= 0x1b) ||
    (0x28 <= opcode <= 0x2b) || (0x38 <= opcode <= 0x3b)
  }

  datatype ArithKind = AddK | AdcK | SbbK | SubK | CmpK

  function ArithOf(opcode: int): (k: ArithKind)
    requires IsAddSubOpcode(opcode)
    ensures k == AddK <==> opcode <= 0x03
    ensures k == CmpK <==> opcode >= 0x38
  {
    if opcode <= 0x03 then AddK else if opcode <= 0x13 then AdcK
    else if opcode <= 0x1b then SbbK else if opcode <= 0x2b then SubK else CmpK
  }

  predicate IsAddKind(k: ArithKind) { k == AddK || k == AdcK }
  predicate UsesCarry(k: ArithKind) { k == AdcK || k == SbbK }

  function ArithResult(k: ArithKind, left: int, right: int, c: bool): int {
    var cin := if c && UsesCarry(k) then 1 else 0;
    if IsAddKind(k) then left + right + cin else left - right - cin
  }

  /** The flags of `left op right`: the add/sub rule with the carry-in for ADC
      and SBB. */
  function ArithFlags(f: seq<bool>, word: bool, k: ArithKind, left: int, right: int): (r: seq<bool>)
    requires IsFlags(f)
    ensures IsFlags(r)
  {
    AddSubFlags(f, word, left, right, ArithResult(k, left, right, f[FLAG_C]), !IsAddKind(k), UsesCarry(k) && f[FLAG_C])
  }

  /** C is the unsigned carry out of left + right (+ C for ADC), or the borrow of
      left - right (- C for SBB; SUB and CMP without). */
  lemma {:induction false} ArithCarryMeaning(f: seq<bool>, word: bool, k: ArithKind, left: int, right: int)
    requires IsFlags(f) && Fits(word, left) && Fits(word, right)
    ensures var cin := if f[FLAG_C] && UsesCarry(k) then 1 else 0;
            && (IsAddKind(k) ==> (ArithFlags(f, word, k, left, right)[FLAG_C] <==> left + right + cin >= Width(word)))
            && (!IsAddKind(k) ==> (ArithFlags(f, word, k, left, right)[FLAG_C] <==> left < right + cin))
  {
    if IsAddKind(k) {
      AddFlagsMeaning(f, word, left, right, UsesCarry(k) && f[FLAG_C]);
    } else {
      SubBorrowMeaning(f, word, left, right, UsesCarry(k) && f[FLAG_C]);
    }
  }

  /** Op_ADD_SUB_ADC_SBC after decoding: `left op right`, where left is the
      operand and right the register d.reg, or the other way round when the
      register is the destination.  CMP only sets the flags. */
  function AddSubExec(r: Regs, m: Mem, d: ModRm, word: bool, toReg: bool, k: ArithKind, op: Operand): (e: Exec)
    requires Ok(r, m) && d.mod < 4 && d.reg < 8 && d.rm < 8 && OperandFor(op, d.mod, word)
    ensures Ok(e.r, e.m)
    ensures e.r.clock == r.clock
  {
    var v2 := GetReg(r.gp, d.reg, word);
    var c := r.flags[FLAG_C];
    var left := if toReg then v2 else op.v;
    var right := if toReg then op.v else v2;
    var res := ArithResult(k, left, right, c);
    var r1 := r.(flags := ArithFlags(r.flags, word, k, left, right));
    if k == CmpK then Exec(r1, m, 0)
    else if toReg then Exec(r1.(gp := PutReg(r1.gp, d.reg, word, Mask(word, res))), m, 0)
    else
      var (r2, m2, pc) := UpdateRegisterMem(r1, m, d.rm, d.mod, op, word, Mask(word, res));
      Exec(r2, m2, pc)
  }

  /** The flags of ADD, ADC, SBB, SUB and CMP are ArithFlags of the two operands,
      in instruction order; CMP changes nothing else. */
  lemma {:induction false} AddSubFlagsMeaning(r: Regs, m: Mem, d: ModRm, word: bool, toReg: bool, k: ArithKind, op: Operand)
    requires Ok(r, m) && d.mod < 4 && d.reg < 8 && d.rm < 8 && OperandFor(op, d.mod, word)
    ensures var e := AddSubExec(r, m, d, word, toReg, k, op);
            var v2 := GetReg(r.gp, d.reg, word);
            && e.r.flags == (if toReg then ArithFlags(r.flags, word, k, v2, op.v) else ArithFlags(r.flags, word, k, op.v, v2))
            && (k == CmpK ==> e.r == r.(flags := e.r.flags) && e.m == m)
  {
  }

  /** With the register as destination, it receives the result modulo the operand
      width and the other registers keep their values. */
  lemma {:induction false} AddSubToRegMeaning(r: Regs, m: Mem, d: ModRm, word: bool, k: ArithKind, op: Operand)
    requires Ok(r, m) && d.mod < 4 && d.reg < 8 && d.rm < 8 && OperandFor(op, d.mod, word) && k != CmpK
    ensures var e := AddSubExec(r, m, d, word, true, k, op);
            var res := ArithResult(k, GetReg(r.gp, d.reg, word), op.v, r.flags[FLAG_C]);
            && e.m == m && e.r == r.(gp := e.r.gp, flags := e.r.flags)
            && GetReg(e.r.gp, d.reg, word) == Mask(word, res)
            && forall j :: 0 <= j < 8 && j != d.reg ==> GetReg(e.r.gp, j, word) == GetReg(r.gp, j, word)
  {
    var v2 := GetReg(r.gp, d.reg, word);
    var res := ArithResult(k, v2, op.v, r.flags[FLAG_C]);
    var r1 := r.(flags := ArithFlags(r.flags, word, k, v2, op.v));
    PutGetReg(r1.gp, d.reg, word, Mask(word, res));
  }

  /** With the operand as destination, it receives the result modulo the operand
      width. */
  lemma {:induction false} AddSubToOperandMeaning(r: Regs, m: Mem, d: ModRm, word: bool, k: ArithKind, op: Operand)
    requires Ok(r, m) && d.mod < 4 && d.reg < 8 && d.rm < 8 && OperandFor(op, d.mod, word) && k != CmpK
    ensures var e := AddSubExec(r, m, d, word, false, k, op);
            var res := ArithResult(k, op.v, GetReg(r.gp, d.reg, word), r.flags[FLAG_C]);
            Wrote(r.(flags := e.r.flags), m, e.r, e.m, d.rm, op, word, Mask(word, res))
  {
    var v2 := GetReg(r.gp, d.reg, word);
    var res := ArithResult(k, op.v, v2, r.flags[FLAG_C]);
    var r1 := r.(flags := ArithFlags(r.flags, word, k, op.v, v2));
    WrittenBack(r1, m, d.rm, d.mod, op, word, Mask(word, res));
  }

  /** Op_ADD_SUB_ADC_SBC: mod/rm byte, the operand, then AddSubExec. */
  function AddSub(r: Regs, m: Mem, opcode: int): (e: Exec)
    requires Ok(r, m) && IsAddSubOpcode(opcode)
    ensures Ok(e.r, e.m)
    ensures e.r.clock == r.clock
  {
    var word := opcode % 2 == 1;
    var toReg := (opcode / 2) % 2 == 1;
    var (r1, b) := PcByte(r, m);
    var d := DecodeModRm(b);
    var (r2, op) := RegisterMem(r1, m, d.rm, d.mod, word);
    var e := AddSubExec(r2, m, d, word, toReg, ArithOf(opcode), op);
    e.(cycles := op.cycles + 4 + e.cycles)
  }

  // ---------------------------------------------------------------- TEST NOT NEG MUL IMUL DIV

  /** NOT: every bit of the operand flipped. */
  function NotValue(word: bool, v: int): (r: int)
    requires Fits(word, v)
    ensures Fits(word, r) && v + r == Width(word) - 1
  {
    Width(word) - 1 - v
  }

  /** NEG: the two's complement within the operand width. */
  function NegValue(word: bool, v: int): (r: int)
    requires Fits(word, v)
    ensures Fits(word, r) && (v + r) % Width(word) == 0
  {
    Mask(word, -v)
  }

  /** NEG's flags: those of 0 - v, then C set iff v is not zero. */
  function NegFlags(f: seq<bool>, word: bool, v: int): (r: seq<bool>)
    requires IsFlags(f) && Fits(word, v)
    ensures IsFlags(r)
  {
    AddSubFlags(f, word, 0, v, -v, true, false)[FLAG_C := v != 0]
  }

  /** NEG undoes itself; Z and C say whether the operand was zero, and O is set
      only for the most negative value, whose negation does not fit. */
  lemma {:induction false} NegMeaning(f: seq<bool>, word: bool, v: int)
    requires IsFlags(f) && Fits(word, v)
    ensures NegValue(word, NegValue(word, v)) == v
    ensures var r := NegFlags(f, word, v);
            && (r[FLAG_C] <==> v != 0)
            && (r[FLAG_Z] <==> v == 0)
            && (r[FLAG_O] <==> v == SignMask(word))
  {
    var n := NegValue(word, v);
    NegMask(word, v);
    NegMask(word, n);
    NegOverflow(f, word, v, n);
  }

  /** -v within the width: 0 for 0, otherwise the width minus v. */
  lemma NegMask(word: bool, v: int)
    requires Fits(word, v)
    ensures Mask(word, -v) == (if v == 0 then 0 else Width(word) - v)
  {
    if word {
      assert Mask(word, -v) == Low16(-v);
    } else {
      assert Mask(word, -v) == Low8(-v);
    }
  }

  /** NEG sets O exactly for the most negative value. */
  lemma NegOverflow(f: seq<bool>, word: bool, v: int, n: int)
    requires IsFlags(f) && Fits(word, v) && n == Mask(word, -v) && n == (if v == 0 then 0 else Width(word) - v)
    ensures NegFlags(f, word, v)[FLAG_O] <==> v == SignMask(word)
  {
    NegOverflowBits(f, word, v, n);
    SignBit(word, v);
    SignBit(word, n);
  }

  /** NEG's O flag: both v and its negation have the sign bit set. */
  lemma NegOverflowBits(f: seq<bool>, word: bool, v: int, n: int)
    requires IsFlags(f) && Fits(word, v) && n == Mask(word, -v)
    ensures NegFlags(f, word, v)[FLAG_O] == (HasBit(v, SignMask(word)) && HasBit(n, SignMask(word)))
  {
    assert NegFlags(f, word, v)[FLAG_O] == AddSubFlags(f, word, 0, v, -v, true, false)[FLAG_O];
    assert !HasBit(0, SignMask(word));
  }

  /** The MUL of Op_TEST_others: AX (or AL) times the operand into AX (and DX);
      C and O say whether the upper half is in use.  A REP prefix in front
      negates the product, and MUL ends the REP. */
  function MulExec(r: Regs, word: bool, v: int): (r': Regs)
    requires r.Valid() && Fits(word, v)
    ensures r'.Valid() && r' == r.(gp := r'.gp, flags := r'.flags, rep := r.rep.(active := false))
  {
    var negate := r.rep.mode == REP && r.rep.active;
    var (ax, dx, flag) := Mul(word, if word then r.gp.AX() else r.gp.al, v, negate);
    var g := PutReg(r.gp, 0, true, ax);
    r.(gp := if word then PutReg(g, 2, true, dx) else g,
       flags := r.flags[FLAG_C := flag][FLAG_O := flag],
       rep := r.rep.(active := false))
  }

  /** Outside the REP quirk, MUL leaves the exact product in AX (byte) or DX:AX
      (word), sets C = O iff the upper half is non-zero and keeps the other
      registers. */
  lemma {:induction false} MulExecMeaning(r: Regs, word: bool, v: int)
    requires r.Valid() && Fits(word, v) && !(r.rep.active && r.rep.mode == REP)
    ensures var r' := MulExec(r, word, v);
            var ax := GetReg(r'.gp, 0, true);
            var dx := GetReg(r'.gp, 2, true);
            && (word ==> dx * 0x10000 + ax == r.gp.AX() * v && (r'.flags[FLAG_C] <==> r.gp.AX() * v >= 0x10000))
            && (!word ==> ax == r.gp.al * v && dx == r.gp.DX() && (r'.flags[FLAG_C] <==> r.gp.al * v >= 0x100))
            && r'.flags[FLAG_O] == r'.flags[FLAG_C]
            && (forall j :: 0 <= j < 8 && j != 0 && j != 2 ==> GetReg(r'.gp, j, true) == GetReg(r.gp, j, true))
  {
    var acc := if word then r.gp.AX() else r.gp.al;
    var (ax, dx, flag) := Mul(word, acc, v, false);
    MulMeaning(word, acc, v);
    var g := PutReg(r.gp, 0, true, ax);
    PutGetReg(r.gp, 0, true, ax);
    if word {
      PutGetReg(g, 2, true, dx);
    }
  }

  /** IMUL: the signed product.  The word form stores it in DX:AX and sets C = O
      iff AX alone does not hold it; the byte form stores it in AX, sets S from
      AH and C = O iff AL alone does not hold it.  A REP prefix in front negates
      the product, and IMUL ends the REP. */
  function IMulExec(r: Regs, word: bool, v: int): (r': Regs)
    requires r.Valid() && Fits(word, v)
    ensures r'.Valid() && r' == r.(gp := r'.gp, flags := r'.flags, rep := r.rep.(active := false))
  {
    var negate := r.rep.mode == REP && r.rep.active;
    if word then
      var p := ToSigned16(r.gp.AX()) * ToSigned16(v);
      var q := if negate then -p else p;
      var ax := Low16(q);
      var flag := ToSigned16(ax) != p;
      r.(gp := PutReg(PutReg(r.gp, 0, true, ax), 2, true, Low16(q / 0x10000)),
         flags := r.flags[FLAG_C := flag][FLAG_O := flag],
         rep := r.rep.(active := false))
    else
      var p := ToSigned8(r.gp.al) * ToSigned8(v);
      var q := if negate then -p else p;
      var ax := Low16(q);
      var flag := ToSigned8(ax) != q;
      r.(gp := PutReg(r.gp, 0, true, ax),
         flags := r.flags[FLAG_S := ax >= 0x8000][FLAG_C := flag][FLAG_O := flag],
         rep := r.rep.(active := false))
  }

  lemma {:induction false} ProductMagnitude(x: int, y: int, n: int)
    requires 0 <= x <= n && 0 <= y <= n
    ensures 0 <= x * y <= n * n
  {
    assert n * n - x * y == (n - x) * n + x * (n - y);
    assert (n - x) * n >= 0;
    assert x * (n - y) >= 0;
  }

  /** Two signed values of magnitude at most n multiply to magnitude at most n*n. */
  lemma {:induction false} SignedProductBounds(a: int, b: int, n: int)
    requires -n <= a <= n && -n <= b <= n
    ensures -(n * n) <= a * b <= n * n
  {
    ProductMagnitude(Abs(a), Abs(b), n);
    assert a * b == Abs(a) * Abs(b) || a * b == -(Abs(a) * Abs(b));
  }

  /** A product of two signed words, split into the words DX:AX, reads back as
      itself; AX alone holds it exactly when it lies in the signed word range. */
  lemma {:induction false} SplitSignedProduct(p: int)
    requires -0x40000000 <= p <= 0x40000000
    ensures ToSigned16(Low16(p / 0x10000)) * 0x10000 + Low16(p) == p
    ensures ToSigned16(Low16(p)) == p <==> -0x8000 <= p < 0x8000
  {
    var h := p / 0x10000;
    assert p == h * 0x10000 + p % 0x10000;
    assert -0x4000 <= h <= 0x4000;
    assert ToSigned16(Low16(h)) == h;
  }

  /** Outside the REP quirk, word IMUL leaves the signed product in DX:AX and
      sets C = O iff it does not fit AX. */
  lemma {:induction false} IMulWordMeaning(r: Regs, v: int)
    requires r.Valid() && IsWord(v) && !(r.rep.active && r.rep.mode == REP)
    ensures var r' := IMulExec(r, true, v);
            var p := ToSigned16(r.gp.AX()) * ToSigned16(v);
            && ToSigned16(GetReg(r'.gp, 2, true)) * 0x10000 + GetReg(r'.gp, 0, true) == p
            && (r'.flags[FLAG_C] <==> !(-0x8000 <= p < 0x8000))
            && r'.flags[FLAG_O] == r'.flags[FLAG_C]
  {
    var p := ToSigned16(r.gp.AX()) * ToSigned16(v);
    SignedProductBounds(ToSigned16(r.gp.AX()), ToSigned16(v), 0x8000);
    SplitSignedProduct(p);
    var g := PutReg(r.gp, 0, true, Low16(p));
    PutGetReg(r.gp, 0, true, Low16(p));
    PutGetReg(g, 2, true, Low16(p / 0x10000));
  }

  /** A product of two signed bytes is kept exactly by AX; AL alone holds it
      exactly when it lies in the signed byte range. */
  lemma {:induction false} SmallSignedProduct(p: int)
    requires -0x4000 <= p <= 0x4000
    ensures ToSigned16(Low16(p)) == p
    ensures ToSigned8(Low16(p)) == p <==> -0x80 <= p < 0x80
  {
    assert Low8(Low16(p)) == Low8(p);
  }

  /** Outside the REP quirk, byte IMUL leaves the signed product in AX and sets
      C = O iff it does not fit AL. */
  lemma {:induction false} IMulByteMeaning(r: Regs, v: int)
    requires r.Valid() && IsByte(v) && !(r.rep.active && r.rep.mode == REP)
    ensures var r' := IMulExec(r, false, v);
            var p := ToSigned8(r.gp.al) * ToSigned8(v);
            && ToSigned16(GetReg(r'.gp, 0, true)) == p
            && (r'.flags[FLAG_C] <==> !(-0x80 <= p < 0x80))
            && r'.flags[FLAG_O] == r'.flags[FLAG_C]
  {
    var p := ToSigned8(r.gp.al) * ToSigned8(v);
    SignedProductBounds(ToSigned8(r.gp.al), ToSigned8(v), 0x80);
    SmallSignedProduct(p);
    PutGetReg(r.gp, 0, true, Low16(p));
  }

  /** DIV: clear C and O; divide AX (byte) or DX:AX (word) by the operand.  A zero
      divisor or a quotient that does not fit sets Z, S, P from AH, clears A and
      raises interrupt 0 with the current IP; otherwise the quotient goes to AL
      (AX) and the remainder to AH (DX). */
  function DivExec(r: Regs, m: Mem, word: bool, v: int): (e: Exec)
    requires Ok(r, m) && Fits(word, v)
    ensures Ok(e.r, e.m)
    ensures e.r.clock == r.clock
  {
    var f := r.flags[FLAG_C := false][FLAG_O := false];
    match Div(word, Dividend(r.gp, word), v)
    case DivideError =>
      var (r', m') := Interrupt(r.(flags := WithZSP(f, r.gp.ah)[FLAG_A := false]), m, r.ip, 0);
      Exec(r', m', 0)
    case Quotient(q, rem) =>
      if word then Exec(r.(gp := PutReg(PutReg(r.gp, 0, true, q), 2, true, rem), flags := f), m, 0)
      else Exec(r.(gp := r.gp.(al := q, ah := rem), flags := f), m, 0)
  }

  /** The dividend of DIV: AX, or DX:AX for the word form. */
  function Dividend(g: GpRegs, word: bool): (n: nat)
    requires g.Valid()
  {
    if word then g.DX() * 0x10000 + g.AX() else g.AX()
  }

  /** When DIV traps (see Alu.DivMeaning: a zero divisor or an oversized
      quotient) it enters the handler whose IP is the word at 0000:0000 (vector
      0), with interrupts and tracing off and the general registers other than SP
      untouched. */
  lemma {:induction false} DivTrapMeaning(r: Regs, m: Mem, word: bool, v: int)
    requires Ok(r, m) && Fits(word, v)
    requires Div(word, Dividend(r.gp, word), v).DivideError?
    ensures var e := DivExec(r, m, word, v);
            && e.r.ip == ReadMemWord(e.m, 0, 0)
            && e.r.gp == r.gp.(sp := e.r.gp.sp) && !e.r.flags[FLAG_I] && !e.r.flags[FLAG_T]
  {
    var f := r.flags[FLAG_C := false][FLAG_O := false];
    var r1 := r.(flags := WithZSP(f, r.gp.ah)[FLAG_A := false]);
    var (r2, m2) := Interrupt(r1, m, r.ip, 0);
    assert DivExec(r, m, word, v) == Exec(r2, m2, 0);
    assert r2.gp == r.gp.(sp := r2.gp.sp) && r2.ip == ReadMemWord(m2, 0, 0);
  }

  /** Without a trap, DIV leaves quotient and remainder: quotient * divisor +
      remainder is the dividend and the remainder is below the divisor. */
  lemma {:induction false} DivQuotientMeaning(r: Regs, m: Mem, word: bool, v: int)
    requires Ok(r, m) && Fits(word, v)
    requires !(v == 0 || Dividend(r.gp, word) >= Width(word) * v)
    ensures var e := DivExec(r, m, word, v);
            && e.m == m && !e.r.flags[FLAG_C] && !e.r.flags[FLAG_O]
            && (word ==> GetReg(e.r.gp, 0, true) * v + GetReg(e.r.gp, 2, true) == Dividend(r.gp, word)
                         && GetReg(e.r.gp, 2, true) < v)
            && (!word ==> e.r.gp.al * v + e.r.gp.ah == Dividend(r.gp, word) && e.r.gp.ah < v)
  {
    DivMeaning(word, Dividend(r.gp, word), v);
    match Div(word, Dividend(r.gp, word), v)
    case Quotient(q, rem) =>
      if word {
        var g := PutReg(r.gp, 0, true, q);
        PutGetReg(r.gp, 0, true, q);
        PutGetReg(g, 2, true, rem);
      }
  }

  /** Op_TEST_others (0xF6 byte, 0xF7 word): /reg 0 and 1 TEST with an immediate,
      2 NOT, 3 NEG, 4 MUL, 5 IMUL, 6 DIV, 7 IDIV (of which only the clearing of C,
      O and REP is modelled). */
  function TestOthers(r: Regs, m: Mem, opcode: int): (e: Exec)
    requires Ok(r, m) && (opcode == 0xf6 || opcode == 0xf7)
    ensures Ok(e.r, e.m)
    ensures e.r.clock == r.clock
  {
    var word := opcode == 0xf7;
    var (r1, b) := PcByte(r, m);
    var d := DecodeModRm(b);
    var (r2, op) := RegisterMem(r1, m, d.rm, d.mod, word);
    if d.reg <= 1 then
      var (r3, imm) := if word then PcWord(r2, m) else PcByte(r2, m);
      Exec(r3.(flags := LogicFlags(r3.flags, word, BitAnd(op.v, imm))), m, op.cycles + 4)
    else if d.reg == 2 then
      var (r3, m3, pc) := UpdateRegisterMem(r2, m, d.rm, d.mod, op, word, NotValue(word, op.v));
      Exec(r3, m3, op.cycles + pc + 4)
    else if d.reg == 3 then
      var (r3, m3, pc) := UpdateRegisterMem(r2.(flags := NegFlags(r2.flags, word, op.v)), m, d.rm, d.mod, op, word, NegValue(word, op.v));
      Exec(r3, m3, op.cycles + pc + 4)
    else if d.reg == 4 then Exec(MulExec(r2, word, op.v), m, op.cycles + (if word then 118 else 70) + 4)
    else if d.reg == 5 then Exec(IMulExec(r2, word, op.v), m, op.cycles + (if word then 128 else 80) + 4)
    else if d.reg == 6 then
      var e := DivExec(r2, m, word, op.v);
      e.(cycles := op.cycles + 4)
    else Exec(r2.(flags := r2.flags[FLAG_C := false][FLAG_O := false], rep := r2.rep.(active := false)), m, op.cycles + 4)
  }

  // ---------------------------------------------------------------- shifts

  /** SETMO / SETMOC (/reg 6 of 0xD0-0xD3): C, A, Z and O clear, P from the
      parity of 0xFF, S set. */
  function SetMoFlags(f: seq<bool>): (r: seq<bool>)
    requires IsFlags(f)
    ensures IsFlags(r) && !r[FLAG_C] && !r[FLAG_A] && !r[FLAG_Z] && !r[FLAG_O] && r[FLAG_S]
    ensures r[FLAG_P] == EvenParity(0xFF)
    ensures OthersKept(r, f, FLAG_C, FLAG_A, FLAG_Z, FLAG_O, FLAG_P, FLAG_S)
  {
    f[FLAG_C := false][FLAG_A := false][FLAG_Z := false][FLAG_O := false][FLAG_P := EvenParity(0xFF)][FLAG_S := true]
  }

  /** The overflow flag a shift or rotate leaves: ROL/RCL compare C with the new
      top bit, ROR/RCR the two top bits of the result (even for a count of 0);
      SHL compares the new top bit with C when the count is not 0; SHR takes the
      old top bit for a count of 1 and clears O otherwise; SAR clears O when the
      count is not 0. */
  function ShiftOverflow(mode: nat, word: bool, v: int, v1: int, c1: bool, o: bool, count: nat): bool
    requires mode < 8 && mode != 6
  {
    var top := SignMask(word);
    if mode == 0 || mode == 2 then c1 != HasBit(v1, top)
    else if mode == 1 || mode == 3 then HasBit(v1, top) != HasBit(v1, top / 2)
    else if mode == 4 then (if count != 0 then HasBit(v1, top) != c1 else o)
    else if mode == 5 then count == 1 && HasBit(v, top)
    else if count != 0 then false else o
  }

  /** The value and flags of ROL, ROR, RCL, RCR, SHL, SHR and SAR by `count`:
      C is the last bit shifted out (unchanged for a count of 0), O as
      ShiftOverflow says, and for the shifts proper (/reg 4, 5, 7) with a
      non-zero count S, Z and P from the result. */
  function ShiftResult(mode: nat, word: bool, v: int, f: seq<bool>, count: nat): (res: (int, seq<bool>))
    requires mode < 8 && mode != 6 && 0 <= v < Width(word) && IsFlags(f)
    ensures 0 <= res.0 < Width(word) && IsFlags(res.1)
  {
    var s := ShiftIterate(mode, word, v, f[FLAG_C], if mode == 7 then SarSign(word, v) else 0, count);
    var f1 := f[FLAG_C := s.1][FLAG_O := ShiftOverflow(mode, word, v, s.0, s.1, f[FLAG_O], count)];
    if mode >= 4 && count != 0 then
      (s.0, f1[FLAG_S := HasBit(s.0, SignMask(word))][FLAG_Z := s.0 == 0][FLAG_P := Parity(s.0)])
    else (s.0, f1)
  }

  /** Op_shift as written for SHL, SHR and SAR by a non-zero count: only a
      byte result is cut to 8 bits, so a word SHL keeps the bits shifted past
      bit 15, and Z and P are taken from that value, P over all its bits.
      C, O and S depend only on the low bits and are those of ShiftResult. */
  function ShiftFlagsAsWritten(mode: nat, word: bool, v: int, f: seq<bool>, count: nat): (res: (int, seq<bool>))
    requires (mode == 4 || mode == 5 || mode == 7) && 0 <= v < Width(word) && IsFlags(f) && count > 0
    ensures IsFlags(res.1) && res.0 >= 0
    ensures res.0 % Width(word) == ShiftResult(mode, word, v, f, count).0
  {
    var s := ShiftResult(mode, word, v, f, count);
    if word && mode == 4 then
      ShlMultiplies(true, v, f[FLAG_C], count);
      var raw: nat := v * Pow2(count);
      (raw, s.1[FLAG_Z := raw == 0][FLAG_P := EvenParity(raw)])
    else
      assert s.0 % Width(word) == s.0 by { assert Width(word) == if word then 0x10000 else 0x100; }
      (s.0, s.1[FLAG_Z := s.0 == 0][FLAG_P := EvenParity(s.0)])
  }

  /** SHL of the word 0x8000 by one as written leaves 0x10000, so Z and P are
      clear; the 8088 keeps 0 and sets both. */
  lemma ShlAsWrittenWordFlags(f: seq<bool>)
    requires IsFlags(f)
    ensures var w := ShiftFlagsAsWritten(4, true, 0x8000, f, 1);
            w.0 == 0x10000 && !w.1[FLAG_Z] && !w.1[FLAG_P]
    ensures var c := ShiftResult(4, true, 0x8000, f, 1);
            c.0 == 0 && c.1[FLAG_Z] && c.1[FLAG_P]
  {
    ShlByOne(true, 0x8000, f);
    Pow2Values();
    PopCountPow2(16);
    assert Pow2(1) == 2;
  }

  /** SHR of the word 0x0200 by one as written counts both bytes of 0x0100 for
      P and clears it; the 8088 counts the low byte 0x00 and sets P. */
  lemma ShrAsWrittenWordParity(f: seq<bool>)
    requires IsFlags(f)
    ensures var w := ShiftFlagsAsWritten(5, true, 0x200, f, 1);
            w.0 == 0x100 && !w.1[FLAG_P]
    ensures var c := ShiftResult(5, true, 0x200, f, 1);
            c.0 == 0x100 && c.1[FLAG_P]
  {
    ShrByOne(true, 0x200, f);
    Pow2Values();
    PopCountPow2(8);
  }

  /** The `for i in range(count)` loop of Op_shift for ROL .. SAR: `count`
      single-bit steps on (value, carry). */
  method ShiftLoop(mode: nat, word: bool, v: int, c: bool, sign: int, count: nat) returns (v1: int, c1: bool)
    requires mode < 8 && mode != 6 && 0 <= v < Width(word)
    requires sign == 0 || sign == SignMask(word)
    ensures (v1, c1) == ShiftIterate(mode, word, v, c, sign, count)
  {
    v1, c1 := v, c;
    var i := 0;
    while i < count
      invariant 0 <= i <= count && 0 <= v1 < Width(word)
      invariant ShiftIterate(mode, word, v1, c1, sign, count - i) == ShiftIterate(mode, word, v, c, sign, count)
    {
      var s := ShiftStep(mode, word, v1, c1, sign);
      v1, c1 := s.0, s.1;
      i := i + 1;
    }
  }

  /** Value and flags of Op_shift for /reg `mode`; `regCount` is the CL form
      (0xD2, 0xD3).  SETMOC with CL == 0 changes nothing. */
  function ShiftOutcome(mode: nat, word: bool, v: int, f: seq<bool>, regCount: bool, cl: int, count: nat): (res: (int, seq<bool>))
    requires mode < 8 && 0 <= v < Width(word) && IsFlags(f)
    ensures 0 <= res.0 < Width(word) && IsFlags(res.1)
  {
    if mode != 6 then ShiftResult(mode, word, v, f, count)
    else if regCount && cl == 0 then (v, f)
    else (Width(word) - 1, SetMoFlags(f))
  }

  /** The cycles Op_shift adds besides operand access. */
  function ShiftCycles(mode: nat, word: bool, regCount: bool, cl: int, count: nat): nat {
    if mode == 4 || mode == 5 then count * 4
    else if mode != 6 then 2
    else if regCount then (if cl == 0 then 0 else if word then 5 else 4)
    else if word then 3 else 2
  }

  function ShiftExec(r: Regs, m: Mem, d: ModRm, word: bool, regCount: bool, count: nat, op: Operand): (e: Exec)
    requires Ok(r, m) && d.mod < 4 && d.reg < 8 && d.rm < 8 && OperandFor(op, d.mod, word)
    ensures Ok(e.r, e.m)
    ensures e.r.clock == r.clock
  {
    var res := ShiftOutcome(d.reg, word, op.v, r.flags, regCount, r.gp.cl, count);
    var (r2, m2, pc) := UpdateRegisterMem(r.(flags := res.1), m, d.rm, d.mod, op, word, res.0);
    Exec(r2, m2, ShiftCycles(d.reg, word, regCount, r.gp.cl, count) + pc)
  }

  /** Op_shift writes ShiftOutcome's value back to the operand it read (also when
      nothing changed) and leaves ShiftOutcome's flags. */
  lemma {:induction false} ShiftExecMeaning(r: Regs, m: Mem, d: ModRm, word: bool, regCount: bool, count: nat, op: Operand)
    requires Ok(r, m) && d.mod < 4 && d.reg < 8 && d.rm < 8 && OperandFor(op, d.mod, word)
    ensures var e := ShiftExec(r, m, d, word, regCount, count, op);
            var res := ShiftOutcome(d.reg, word, op.v, r.flags, regCount, r.gp.cl, count);
            && e.r.flags == res.1
            && Wrote(r.(flags := res.1), m, e.r, e.m, d.rm, op, word, res.0)
  {
    var res := ShiftOutcome(d.reg, word, op.v, r.flags, regCount, r.gp.cl, count);
    WrittenBack(r.(flags := res.1), m, d.rm, d.mod, op, word, res.0);
  }

  /** Op_shift (0xD0-0xD3): bit 0 of the opcode selects a word operand, bit 1 a
      count of CL instead of 1. */
  function Shift(r: Regs, m: Mem, opcode: int): (e: Exec)
    requires Ok(r, m) && 0xd0 <= opcode <= 0xd3
    ensures Ok(e.r, e.m)
    ensures e.r.clock == r.clock
  {
    var word := opcode % 2 == 1;
    var regCount := opcode >= 0xd2;
    var (r1, b) := PcByte(r, m);
    var d := DecodeModRm(b);
    var (r2, op) := RegisterMem(r1, m, d.rm, d.mod, word);
    var e := ShiftExec(r2, m, d, word, regCount, if regCount then r2.gp.cl else 1, op);
    e.(cycles := op.cycles + e.cycles)
  }

  /** SHL, SHR and SAR by any count: a multiplication by 2^count modulo the
      width, an unsigned division by 2^count, and a signed division by 2^count
      rounding down that keeps the sign bit. */
  lemma ShiftByCount(word: bool, v: int, f: seq<bool>, count: nat)
    requires 0 <= v < Width(word) && IsFlags(f)
    ensures ShiftResult(4, word, v, f, count).0 == (v * Pow2(count)) % Width(word)
    ensures ShiftResult(5, word, v, f, count).0 == v / Pow2(count)
    ensures var v1 := ShiftResult(7, word, v, f, count).0;
            Signed(word, v1) == Signed(word, v) / Pow2(count) && (v1 >= SignMask(word) <==> v >= SignMask(word))
  {
    ShlMultiplies(word, v, f[FLAG_C], count);
    ShrDivides(word, v, f[FLAG_C], count);
    SarDivides(word, v, f[FLAG_C], count);
  }

  /** SHL by one moves the top bit into C, sets O when the sign changed and Z, S
      and P from the result. */
  lemma ShlByOne(word: bool, v: int, f: seq<bool>)
    requires 0 <= v < Width(word) && IsFlags(f)
    ensures var (v1, f1) := ShiftResult(4, word, v, f, 1);
            && v1 == (v * 2) % Width(word) && (f1[FLAG_C] <==> v >= SignMask(word))
            && (f1[FLAG_O] <==> (v >= SignMask(word)) != (v1 >= SignMask(word)))
            && (f1[FLAG_Z] <==> v1 == 0) && (f1[FLAG_S] <==> v1 >= SignMask(word)) && f1[FLAG_P] == Parity(v1)
  {
    var v1 := ShiftStep(4, word, v, f[FLAG_C], 0).0;
    assert ShiftResult(4, word, v, f, 1).0 == v1;
    SignBit(word, v);
    SignBit(word, v1);
  }

  /** SHR by one moves bit 0 into C, sets O from the old sign, clears S and sets
      Z and P from the result. */
  lemma ShrByOne(word: bool, v: int, f: seq<bool>)
    requires 0 <= v < Width(word) && IsFlags(f)
    ensures var (v1, f1) := ShiftResult(5, word, v, f, 1);
            && v1 == v / 2 && (f1[FLAG_C] <==> v % 2 == 1) && (f1[FLAG_O] <==> v >= SignMask(word))
            && (f1[FLAG_Z] <==> v1 == 0) && !f1[FLAG_S] && f1[FLAG_P] == Parity(v1)
  {
    assert ShiftResult(5, word, v, f, 1).0 == v / 2;
    SignBit(word, v);
    SignBit(word, v / 2);
  }

  /** A count of zero leaves the operand and C alone; SHL and SAR then change no
      flag at all, while SHR still clears O. */
  lemma ShiftByZero(mode: nat, word: bool, v: int, f: seq<bool>)
    requires mode < 8 && mode != 6 && 0 <= v < Width(word) && IsFlags(f)
    ensures var (v1, f1) := ShiftResult(mode, word, v, f, 0);
            && v1 == v && f1[FLAG_C] == f[FLAG_C]
            && (mode == 4 || mode == 7 ==> f1 == f)
            && (mode == 5 ==> f1 == f[FLAG_O := false])
  {
  }

  /** SETMO(C) fills the operand with ones and leaves S and P set, Z, C, A and O
      clear; SETMOC with CL == 0 is a no-op. */
  lemma SetMoMeaning(word: bool, v: int, f: seq<bool>, regCount: bool, cl: int, count: nat)
    requires 0 <= v < Width(word) && IsFlags(f)
    ensures var (v1, f1) := ShiftOutcome(6, word, v, f, regCount, cl, count);
            if regCount && cl == 0 then v1 == v && f1 == f
            else v1 == Width(word) - 1 && f1[FLAG_S] && f1[FLAG_P] && !f1[FLAG_Z] && !f1[FLAG_C] && !f1[FLAG_O] && !f1[FLAG_A]
  {
    assert PopCount(0xFF) == 8 by {
      assert PopCount(0xFF) == 1 + PopCount(0x7F);
      assert PopCount(0x7F) == 1 + PopCount(0x3F);
      assert PopCount(0x3F) == 1 + PopCount(0x1F);
      assert PopCount(0x1F) == 1 + PopCount(0xF);
      assert PopCount(0xF) == 1 + PopCount(0x7);
      assert PopCount(0x7) == 1 + PopCount(0x3);
      assert PopCount(0x3) == 1 + PopCount(0x1);
    }
  }

  // ---------------------------------------------------------------- Tick's special cases

  /** The POPF special case of Tick: FLAGS := pop, then FixFlags; 12 cycles.
      The boolean says T went from clear to set, which suppresses the trace
      trap after this instruction. */
  function Popf(r: Regs, m: Mem): (res: (Exec, bool))
    requires Ok(r, m)
    ensures Ok(res.0.r, res.0.m) && res.0.m == m && res.0.cycles == 12
    ensures res.0.r.clock == r.clock
  {
    var p := Pop(r, m);
    var f := PoppedFlags(p.1);
    (Exec(p.0.(flags := f), m, 12), f[FLAG_T] && !r.flags[FLAG_T])
  }

  /** A popped FLAGS word after FixFlags; FixFlags does not touch T. */
  function PoppedFlags(w: int): (f: seq<bool>)
    requires IsWord(w)
    ensures IsFlags(f) && f[FLAG_T] == BitSet(w, FLAG_T)
  {
    Fixed(WordFlags(w, 16))
  }

  /** PUSHF's word popped by POPF gives back the flags after FixFlags and the
      stack pointer; the trace trap is skipped exactly when T was set in the
      saved word but clear before. */
  lemma {:induction false} PopfAfterPush(r: Regs, m: Mem, f: seq<bool>)
    requires Ok(r, m) && IsFlags(f)
    ensures var (r1, m1) := Push(r, m, FlagsValue(f));
            var (e, back) := Popf(r1, m1);
            && e.r == r.(flags := Fixed(f)) && e.m == m1
            && (back <==> f[FLAG_T] && !r.flags[FLAG_T])
  {
    var (r1, m1) := Push(r, m, FlagsValue(f));
    PushPopRoundTrip(r, m, FlagsValue(f));
    WordFlagsRoundTrip(f);
    assert Pop(r1, m1) == (r, FlagsValue(f));
  }

  /** The IRET special case of Tick (Iret), which adds `32 // 44`, that is 0,
      cycles; the boolean is as for Popf. */
  function IretOp(r: Regs, m: Mem): (res: (Exec, bool))
    requires Ok(r, m)
    ensures Ok(res.0.r, res.0.m) && res.0.m == m && res.0.cycles == 0
    ensures res.1 <==> res.0.r.flags[FLAG_T] && !r.flags[FLAG_T]
    ensures res.0.r.clock == r.clock
  {
    var r1 := Iret(r, m);
    (Exec(r1, m, 32 / 44), r1.flags[FLAG_T] && !r.flags[FLAG_T])
  }

  // ---------------------------------------------------------------- crash counter, clamp

  /** Tick's null-opcode check: with terminate-on-off-the-rails a 0x00 opcode
      counts up and stops the processor from the fifth in a row; without it the
      counter is left alone; any other opcode resets it.  Returns (counter,
      stop). */
  function CrashCheck(counter: int, opcode: int, terminate: bool): (res: (int, bool))
    ensures opcode != 0 ==> res == (0, false)
    ensures opcode == 0 && !terminate ==> res == (counter, false)
    ensures opcode == 0 && terminate ==> res.0 == counter + 1
    ensures res.1 <==> opcode == 0 && terminate && res.0 >= 5
  {
    if opcode == 0 then
      if terminate then (counter + 1, counter + 1 >= 5) else (counter, false)
    else (0, false)
  }

  /** The index of the opcode at which a run of Ticks over `ops` stops on the
      null-opcode check, or |ops| when it does not. */
  function CrashStopIndex(counter: int, ops: seq<int>, terminate: bool): (i: nat)
    ensures i <= |ops|
    decreases |ops|
  {
    if |ops| == 0 then 0
    else
      var (c, stop) := CrashCheck(counter, ops[0], terminate);
      if stop then 0 else 1 + CrashStopIndex(c, ops[1..], terminate)
  }

  /** From a counter of c < 5, a run of null opcodes stops the processor at the
      (5 - c)-th of them, and not before. */
  lemma {:induction false} NullRunStops(c: nat, ops: seq<int>)
    requires c < 5 && |ops| >= 5 - c && forall i :: 0 <= i < 5 - c ==> ops[i] == 0
    ensures CrashStopIndex(c, ops, true) == 4 - c
    decreases 5 - c
  {
    if c < 4 {
      NullRunStops(c + 1, ops[1..]);
    }
  }

  /** A non-null opcode ends any run: after it, four more nulls do not stop the
      processor, whatever the counter was. */
  lemma {:induction false} OtherOpcodeResets(counter: int, op: int, ops: seq<int>)
    requires op != 0 && |ops| == 4 && forall i :: 0 <= i < 4 ==> ops[i] == 0
    ensures CrashStopIndex(counter, [op] + ops, true) == 5
  {
    assert ([op] + ops)[1..] == ops;
    ShortNullRun(0, ops);
  }

  /** Fewer than 5 - c nulls from a counter of c do not stop the processor. */
  lemma {:induction false} ShortNullRun(c: nat, ops: seq<int>)
    requires c + |ops| < 5 && forall i :: 0 <= i < |ops| ==> ops[i] == 0
    ensures CrashStopIndex(c, ops, true) == |ops|
    decreases |ops|
  {
    if |ops| > 0 {
      ShortNullRun(c + 1, ops[1..]);
    }
  }

  /** Without terminate-on-off-the-rails the check never stops the processor. */
  lemma {:induction false} NeverStopsWithoutTerminate(counter: int, ops: seq<int>)
    ensures CrashStopIndex(counter, ops, false) == |ops|
    decreases |ops|
  {
    if |ops| > 0 {
      NeverStopsWithoutTerminate(CrashCheck(counter, ops[0], false).0, ops[1..]);
    }
  }

  /** The zero-cycle clamp at the end of Tick: an instruction counts at least
      one cycle. */
  function ClampCycles(c: int): (r: int)
    ensures c != 0 ==> r == c
    ensures r != 0
    ensures c >= 0 ==> r >= 1
  {
    if c == 0 then 1 else c
  }

  // ---------------------------------------------------------------- dispatch

  /** The opcodes whose handlers this model covers: the table entries
      Op_ADD_SUB_ADC_SBC, Op_INC_DEC, Op_Jxx, Op_CMP_OR_XOR_etc, Op_XCHG_AX,
      Op_shift, Op_LOOP and Op_TEST_others, and the POPF and IRET special
      cases. */
  predicate IsModelledOpcode(opcode: int) {
    IsAddSubOpcode(opcode) || (0x40 <= opcode < 0x50) || (0x60 <= opcode < 0x80) ||
    (0x80 <= opcode <= 0x83) || (0x91 <= opcode <= 0x97) || opcode == 0x9d || opcode == 0xcf ||
    (0xd0 <= opcode <= 0xd3) || (0xe0 <= opcode <= 0xe2) || opcode == 0xf6 || opcode == 0xf7
  }

  /** What Tick's dispatch did: ran a modelled handler (with POPF's and IRET's
      back-from-trace flag), or met an opcode outside the model. */
  datatype Dispatched = Ran(e: Exec, backFromTrace: bool) | Outside

  function Dispatch(r: Regs, m: Mem, opcode: int): (d: Dispatched)
    requires Ok(r, m)
    ensures d.Outside? <==> !IsModelledOpcode(opcode)
    ensures d.Ran? ==> Ok(d.e.r, d.e.m)
    ensures d.Ran? && d.backFromTrace ==> opcode == 0x9d || opcode == 0xcf
    ensures d.Ran? ==> d.e.r.clock == r.clock
  {
    if IsAddSubOpcode(opcode) then Ran(AddSub(r, m, opcode), false)
    else if 0x40 <= opcode < 0x50 then Ran(IncDecOp(r, m, opcode), false)
    else if 0x60 <= opcode < 0x80 then Ran(Jxx(r, m, opcode), false)
    else if 0x80 <= opcode <= 0x83 then Ran(Group1(r, m, opcode), false)
    else if 0x91 <= opcode <= 0x97 then Ran(XchgAx(r, m, opcode), false)
    else if opcode == 0x9d then var (e, back) := Popf(r, m); Ran(e, back)
    else if opcode == 0xcf then var (e, back) := IretOp(r, m); Ran(e, back)
    else if 0xd0 <= opcode <= 0xd3 then Ran(Shift(r, m, opcode), false)
    else if 0xe0 <= opcode <= 0xe2 then Ran(Loop(r, m, opcode), false)
    else if opcode == 0xf6 || opcode == 0xf7 then Ran(TestOthers(r, m, opcode), false)
    else Outside
  }

  /** Opcodes 0x60-0x6F run exactly as 0x70-0x7F. */
  lemma JccAliasDispatch(r: Regs, m: Mem, opcode: int)
    requires Ok(r, m) && 0x60 <= opcode < 0x70
    ensures Dispatch(r, m, opcode) == Dispatch(r, m, opcode + 0x10)
  {
    JccAlias(opcode, r.flags);
    assert Jxx(r, m, opcode) == Jxx(r, m, opcode + 0x10);
  }
}
