/** The building blocks of the execution engine (i8088.py) as functions of the
    state record and memory: instruction fetch, the register file selected by a
    3-bit register number, the mod/rm effective address with its default segment,
    the stack, interrupt entry and return, and the REP-prefix bookkeeping.  The
    processor object (module I8088) performs each of them step by step and is
    proved to compute exactly these functions. */
module CpuCore {
  import opened Bits
  import opened State8088
  import opened CpuMemory

  ghost predicate Ok(r: Regs, m: Mem) { r.Valid() && ValidMem(m) }

  // ---------------------------------------------------------------- fetch

  /** GetPcByte: the byte at CS:IP; IP moves on by one, wrapping in the segment. */
  function PcByte(r: Regs, m: Mem): (res: (Regs, int))
    requires Ok(r, m)
    ensures res.0.Valid() && IsByte(res.1)
    ensures res.0 == r.(ip := (r.ip + 1) % 0x10000)
  {
    (r.(ip := (r.ip + 1) % 0x10000), ReadMemByte(m, r.seg.cs, r.ip))
  }

  /** GetPcWord: two byte fetches, the first one the low byte. */
  function PcWord(r: Regs, m: Mem): (res: (Regs, int))
    requires Ok(r, m)
    ensures res.0.Valid() && IsWord(res.1)
    ensures res.0 == r.(ip := (r.ip + 2) % 0x10000)
  {
    var (r1, lo) := PcByte(r, m);
    var (r2, hi) := PcByte(r1, m);
    (r2, lo + hi * 0x100)
  }

  /** A fetched word is the little-endian word at CS:IP; at offset 0xFFFF its high
      byte comes from offset 0 of the same segment. */
  lemma {:induction false} PcWordLittleEndian(r: Regs, m: Mem)
    requires Ok(r, m)
    ensures PcWord(r, m).1 == ReadMemByte(m, r.seg.cs, r.ip) + 0x100 * ReadMemByte(m, r.seg.cs, (r.ip + 1) % 0x10000)
    ensures r.ip < 0xFFFF ==> PcWord(r, m).1 == ReadMemWord(m, r.seg.cs, r.ip)
  {
    if r.ip < 0xFFFF {
      assert (r.ip + 1) % 0x10000 == r.ip + 1;
    }
  }

  // ---------------------------------------------------------------- registers

  /** GetRegister: word registers AX CX DX BX SP BP SI DI, byte registers
      AL CL DL BL AH CH DH BH. */
  function GetReg(g: GpRegs, reg: nat, w: bool): (v: int)
    requires g.Valid() && reg < 8
    ensures Fits(w, v)
  {
    if w then
      (if reg == 0 then g.AX() else if reg == 1 then g.CX() else if reg == 2 then g.DX()
       else if reg == 3 then g.BX() else if reg == 4 then g.sp else if reg == 5 then g.bp
       else if reg == 6 then g.si else g.di)
    else
      (if reg == 0 then g.al else if reg == 1 then g.cl else if reg == 2 then g.dl
       else if reg == 3 then g.bl else if reg == 4 then g.ah else if reg == 5 then g.ch
       else if reg == 6 then g.dh else g.bh)
  }

  predicate Fits(w: bool, v: int) { if w then IsWord(v) else IsByte(v) }

  /** PutRegister: the word forms of AX..DX go through SetAX..SetDX (both halves),
      the byte forms store one half. */
  function PutReg(g: GpRegs, reg: nat, w: bool, v: int): (g': GpRegs)
    requires g.Valid() && reg < 8 && Fits(w, v)
    ensures g'.Valid()
  {
    if w then
      (if reg == 0 then g.(ah := High(v), al := Low8(v))
       else if reg == 1 then g.(ch := High(v), cl := Low8(v))
       else if reg == 2 then g.(dh := High(v), dl := Low8(v))
       else if reg == 3 then g.(bh := High(v), bl := Low8(v))
       else if reg == 4 then g.(sp := v) else if reg == 5 then g.(bp := v)
       else if reg == 6 then g.(si := v) else g.(di := v))
    else
      (if reg == 0 then g.(al := v) else if reg == 1 then g.(cl := v)
       else if reg == 2 then g.(dl := v) else if reg == 3 then g.(bl := v)
       else if reg == 4 then g.(ah := v) else if reg == 5 then g.(ch := v)
       else if reg == 6 then g.(dh := v) else g.(bh := v))
  }

  /** A register reads back what was put into it, and the other registers of the
      same width keep their values. */
  lemma {:induction false} PutGetReg(g: GpRegs, reg: nat, w: bool, v: int)
    requires g.Valid() && reg < 8 && Fits(w, v)
    ensures GetReg(PutReg(g, reg, w, v), reg, w) == v
    ensures forall j :: 0 <= j < 8 && j != reg ==> GetReg(PutReg(g, reg, w, v), j, w) == GetReg(g, j, w)
  {
    if w && reg < 4 {
      ComposeSplit(v);
    }
  }

  /** The byte registers alias the word registers: AL..BL (0-3) are the low
      halves and AH..BH (4-7) the high halves of AX, CX, DX, BX. */
  lemma {:induction false} ByteRegistersAlias(g: GpRegs, reg: nat, v: int)
    requires g.Valid() && reg < 8 && IsByte(v)
    ensures var k := reg % 4;
            var old16 := GetReg(g, k, true);
            GetReg(PutReg(g, reg, false, v), k, true) ==
              (if reg < 4 then old16 / 0x100 * 0x100 + v else v * 0x100 + old16 % 0x100)
  {
  }

  // ---------------------------------------------------------------- addressing

  /** GetDoubleRegisterMod00 for the forms without a displacement (rm != 6): the
      register sum cut to 16 bits, and its cycle cost. */
  function Mod00Base(g: GpRegs, reg: nat): (res: (int, int))
    requires g.Valid() && reg < 8 && reg != 6
    ensures IsWord(res.0)
  {
    if reg == 0 then ((g.BX() + g.si) % 0x10000, 7)
    else if reg == 1 then ((g.BX() + g.di) % 0x10000, 8)
    else if reg == 2 then ((g.bp + g.si) % 0x10000, 8)
    else if reg == 3 then ((g.bp + g.di) % 0x10000, 7)
    else if reg == 4 then (g.si, 5)
    else if reg == 5 then (g.di, 5)
    else (g.BX(), 5)
  }

  /** The 8086 reading of the rm field: for rm < 4 bit 1 picks the base (BX or BP)
      and bit 0 the index (SI or DI); rm 4, 5, 7 name SI, DI, BX alone. */
  function EaBase(g: GpRegs, reg: nat): int
    requires g.Valid() && reg < 8
  {
    if reg < 4 then (if reg / 2 == 0 then g.BX() else g.bp) else if reg == 7 then g.BX() else 0
  }

  function EaIndex(g: GpRegs, reg: nat): int
    requires g.Valid() && reg < 8
  {
    if reg < 4 then (if reg % 2 == 0 then g.si else g.di)
    else if reg == 4 then g.si else if reg == 5 then g.di else 0
  }

  /** The table agrees with the bit-field reading of rm. */
  lemma Mod00Decoding(g: GpRegs, reg: nat)
    requires g.Valid() && reg < 8 && reg != 6
    ensures Mod00Base(g, reg).0 == (EaBase(g, reg) + EaIndex(g, reg)) % 0x10000
  {
  }

  /** GetDoubleRegisterMod00: rm 6 is a 16-bit address taken from the
      instruction stream.  Returns (regs, address, cycles). */
  function Mod00(r: Regs, m: Mem, reg: nat): (res: (Regs, int, int))
    requires Ok(r, m) && reg < 8
    ensures res.0.Valid() && IsWord(res.1)
    ensures res.0 == r.(ip := (r.ip + (if reg == 6 then 2 else 0)) % 0x10000)
  {
    if reg == 6 then
      var (r1, a) := PcWord(r, m);
      (r1, a, 6)
    else
      var (a, c) := Mod00Base(r.gp, reg);
      assert r.ip % 0x10000 == r.ip;
      (r, a, c)
  }

  /** GetDoubleRegisterMod01_02 as written: the 8-bit displacement (mod 1) is
      added as an unsigned byte. */
  function Mod0102AsWritten(r: Regs, m: Mem, reg: nat, word: bool): (res: (Regs, int, int))
    requires Ok(r, m) && reg < 8
  {
    var (a, c) := if reg == 6 then (r.gp.bp, 5) else Mod00Base(r.gp, reg);
    var (r1, disp) := if word then PcWord(r, m) else PcByte(r, m);
    (r1, (a + disp) % 0x10000, c)
  }

  /** GetDoubleRegisterMod01_02 as the 8086 defines it: the 8-bit displacement is
      sign-extended. */
  function Mod0102(r: Regs, m: Mem, reg: nat, word: bool): (res: (Regs, int, int))
    requires Ok(r, m) && reg < 8
    ensures res.0.Valid() && IsWord(res.1)
    ensures res.0 == r.(ip := (r.ip + (if word then 2 else 1)) % 0x10000)
  {
    var (a, c) := if reg == 6 then (r.gp.bp, 5) else Mod00Base(r.gp, reg);
    var fetch := if word then PcWord(r, m) else PcByte(r, m);
    var disp := if word then fetch.1 else ToSigned8(fetch.1);
    (fetch.0, (a + disp) % 0x10000, c)
  }

  /** [BX+SI-1] (mod 1, displacement byte 0xFF) as written addresses BX+SI+0xFF. */
  lemma Mod0102AsWrittenIgnoresSign(r: Regs, m: Mem)
    requires Ok(r, m) && r.gp.BX() == 0x10 && r.gp.si == 0
    requires ReadMemByte(m, r.seg.cs, r.ip) == 0xFF
    ensures Mod0102AsWritten(r, m, 0, false).1 == 0x10F
    ensures Mod0102(r, m, 0, false).1 == 0x0F
  {
  }

  /** The forms whose base register is BP: rm 2 and 3, and rm 6 with a
      displacement. */
  predicate BpBased(reg: nat, mod: nat) {
    (reg < 4 && reg / 2 == 1) || (reg == 6 && mod != 0)
  }

  /** The segment of a memory operand: the override prefix if one is active,
      otherwise SS for BP-based forms and DS for the rest. */
  function DataSegment(r: Regs, reg: nat, mod: nat): (s: int)
    ensures r.seg.overrideSet ==> s == r.seg.override
    ensures !r.seg.overrideSet ==> s == (if BpBased(reg, mod) then r.seg.ss else r.seg.ds)
  {
    if r.seg.overrideSet then r.seg.override
    else if reg == 2 || reg == 3 then r.seg.ss
    else if mod != 0 && reg == 6 then r.seg.ss
    else r.seg.ds
  }

  /** GetRegisterMem's answer: the value, whether it lives in memory, the segment
      and offset it came from, and the cycles of the address computation. */
  datatype Operand = Operand(v: int, aValid: bool, seg: int, addr: int, cycles: int)

  /** The instruction bytes a mod/rm operand consumes after the mod/rm byte. */
  function DispSize(reg: nat, mod: nat): nat {
    if mod == 0 then (if reg == 6 then 2 else 0) else if mod == 1 then 1 else if mod == 2 then 2 else 0
  }

  function Load(m: Mem, seg: int, addr: int, w: bool): (v: int)
    requires ValidMem(m)
    ensures Fits(w, v)
  {
    if w then ReadMemWord(m, seg, addr) else ReadMemByte(m, seg, addr)
  }

  function Store(m: Mem, seg: int, addr: int, w: bool, v: int): (m': Mem)
    requires ValidMem(m) && Fits(w, v)
    ensures ValidMem(m')
    ensures Load(m', seg, addr, w) == v
  {
    if w then
      WordRoundTrip(m, seg, addr, v);
      WriteMemWord(m, seg, addr, v)
    else WriteMemByte(m, seg, addr, v)
  }

  /** GetRegisterMem: mod 3 names a register and fetches nothing; the other mods
      name memory at an effective address in the data segment, after consuming
      the displacement bytes. */
  function RegisterMem(r: Regs, m: Mem, reg: nat, mod: nat, w: bool): (res: (Regs, Operand))
    requires Ok(r, m) && reg < 8 && mod < 4
    ensures res.0.Valid() && Fits(w, res.1.v)
    ensures res.0 == r.(ip := (r.ip + DispSize(reg, mod)) % 0x10000)
    ensures mod == 3 ==> res.1 == Operand(GetReg(r.gp, reg, w), false, 0, 0, 0)
    ensures mod < 3 ==> res.1.aValid && IsWord(res.1.addr) && res.1.seg == DataSegment(r, reg, mod)
                        && res.1.v == Load(m, res.1.seg, res.1.addr, w)
  {
    if mod == 0 then
      var (r1, a, c) := Mod00(r, m, reg);
      var seg := DataSegment(r, reg, mod);
      (r1, Operand(Load(m, seg, a, w), true, seg, a, c + 6))
    else if mod == 1 || mod == 2 then
      var (r1, a, c) := Mod0102(r, m, reg, mod == 2);
      var seg := DataSegment(r, reg, mod);
      (r1, Operand(Load(m, seg, a, w), true, seg, a, c + 6))
    else
      assert r.ip % 0x10000 == r.ip;
      (r, Operand(GetReg(r.gp, reg, w), false, 0, 0, 0))
  }

  /** PutRegisterMem: the same addressing as GetRegisterMem, then a store; returns
      (regs, memory, cycles).  Mod 3 puts v into register `reg`; the other mods
      consume the same displacement bytes as RegisterMem and store v at the
      data-segment address RegisterMem reads, two cycles cheaper than the read. */
  function PutRegisterMem(r: Regs, m: Mem, reg: nat, mod: nat, w: bool, v: int): (res: (Regs, Mem, int))
    requires Ok(r, m) && reg < 8 && mod < 4 && Fits(w, v)
    ensures Ok(res.0, res.1)
    ensures mod == 3 ==> res == (r.(gp := PutReg(r.gp, reg, w, v)), m, 0)
    ensures mod < 3 ==> var o := RegisterMem(r, m, reg, mod, w);
                        && res.0 == o.0 && res.1 == Store(m, o.1.seg, o.1.addr, w, v)
                        && res.2 + 2 == o.1.cycles
  {
    if mod == 0 then
      var (r1, a, c) := Mod00(r, m, reg);
      (r1, Store(m, DataSegment(r, reg, mod), a, w, v), c + 4)
    else if mod == 1 || mod == 2 then
      var (r1, a, c) := Mod0102(r, m, reg, mod == 2);
      (r1, Store(m, DataSegment(r, reg, mod), a, w, v), c + 4)
    else
      (r.(gp := PutReg(r.gp, reg, w, v)), m, 0)
  }

  /** UpdateRegisterMem: write back to the operand GetRegisterMem found. */
  function UpdateRegisterMem(r: Regs, m: Mem, reg: nat, mod: nat, op: Operand, w: bool, v: int): (res: (Regs, Mem, int))
    requires Ok(r, m) && reg < 8 && mod < 4 && Fits(w, v)
    ensures Ok(res.0, res.1)
    ensures op.aValid ==> res == (r, Store(m, op.seg, op.addr, w, v), 4)
    ensures !op.aValid && mod == 3 ==> res == (r.(gp := PutReg(r.gp, reg, w, v)), m, 0)
    ensures res.0.clock == r.clock
  {
    if op.aValid then (r, Store(m, op.seg, op.addr, w, v), 4)
    else PutRegisterMem(r, m, reg, mod, w, v)
  }

  /** Writing back to the operand just read: the same location now reads v and
      no further instruction bytes are consumed. */
  lemma {:induction false} UpdateReadsBack(r: Regs, m: Mem, reg: nat, mod: nat, w: bool, v: int)
    requires Ok(r, m) && reg < 8 && mod < 4 && Fits(w, v)
    ensures var (r1, op) := RegisterMem(r, m, reg, mod, w);
            var (r2, m2, _) := UpdateRegisterMem(r1, m, reg, mod, op, w, v);
            if mod == 3 then r2 == r1.(gp := r2.gp) && GetReg(r2.gp, reg, w) == v && m2 == m
            else r2 == r1 && Load(m2, op.seg, op.addr, w) == v
  {
    var (r1, op) := RegisterMem(r, m, reg, mod, w);
    if mod == 3 {
      PutGetReg(r1.gp, reg, w, v);
    }
  }

  // ---------------------------------------------------------------- stack

  /** push as written: SP is decremented without wrapping, so a push with SP = 0
      leaves SP = -2. */
  function PushSpAsWritten(sp: int): int { sp - 2 }

  /** SP two below / above sp, within the 16-bit range. */
  function SpDown(sp: int): (r: int)
    requires IsWord(sp)
    ensures IsWord(r) && r == (sp + 0xFFFE) % 0x10000
  { if sp >= 2 then sp - 2 else sp + 0xFFFE }

  function SpUp(sp: int): (r: int)
    requires IsWord(sp)
    ensures IsWord(r) && r == (sp + 2) % 0x10000
  { if sp < 0xFFFE then sp + 2 else sp - 0xFFFE }

  /** push: SP drops by two within the 16-bit range, then the word goes to SS:SP. */
  function Push(r: Regs, m: Mem, v: int): (res: (Regs, Mem))
    requires Ok(r, m) && IsWord(v)
    ensures Ok(res.0, res.1)
    ensures res.0 == r.(gp := r.gp.(sp := SpDown(r.gp.sp)))
    ensures ReadMemWord(res.1, r.seg.ss, res.0.gp.sp) == v
  {
    var sp := SpDown(r.gp.sp);
    WordRoundTrip(m, r.seg.ss, sp, v);
    (r.(gp := r.gp.(sp := sp)), WriteMemWord(m, r.seg.ss, sp, v))
  }

  /** pop: the word at SS:SP, then SP rises by two within the 16-bit range. */
  function Pop(r: Regs, m: Mem): (res: (Regs, int))
    requires Ok(r, m)
    ensures res.0.Valid() && IsWord(res.1)
    ensures res.0 == r.(gp := r.gp.(sp := SpUp(r.gp.sp)))
  {
    (r.(gp := r.gp.(sp := SpUp(r.gp.sp))), ReadMemWord(m, r.seg.ss, r.gp.sp))
  }

  /** pop right after push returns the pushed word and restores SP. */
  lemma {:induction false} PushPopRoundTrip(r: Regs, m: Mem, v: int)
    requires Ok(r, m) && IsWord(v)
    ensures var (r1, m1) := Push(r, m, v); Pop(r1, m1) == (r, v)
  {
    var (r1, m1) := Push(r, m, v);
    assert r1.gp.(sp := r.gp.sp) == r.gp;
  }

  /** A push from SP = 0 as written leaves the 16-bit range; the wrapping push
      lands at 0xFFFE. */
  lemma PushAsWrittenLeavesRange(r: Regs, m: Mem, v: int)
    requires Ok(r, m) && IsWord(v) && r.gp.sp == 0
    ensures !IsWord(PushSpAsWritten(r.gp.sp))
    ensures Push(r, m, v).0.gp.sp == 0xFFFE
  {
  }

  // ---------------------------------------------------------------- interrupts

  /** The three pushes of InvokeInterrupt: FLAGS, CS, then the return address. */
  function PushFrame(r: Regs, m: Mem, flags: int, cs: int, ret: int): (res: (Regs, Mem))
    requires Ok(r, m) && IsWord(flags) && IsWord(cs) && IsWord(ret)
    ensures Ok(res.0, res.1)
    ensures res.0 == r.(gp := r.gp.(sp := SpDown(SpDown(SpDown(r.gp.sp)))))
  {
    var (r1, m1) := Push(r, m, flags);
    var (r2, m2) := Push(r1, m1, cs);
    Push(r2, m2, ret)
  }

  /** A push leaves the words at the old top of stack and the slot above it as
      they were. */
  lemma {:induction false} PushKeeps(r: Regs, m: Mem, v: int)
    requires Ok(r, m) && IsWord(v)
    ensures var m' := Push(r, m, v).1;
            && ReadMemWord(m', r.seg.ss, r.gp.sp) == ReadMemWord(m, r.seg.ss, r.gp.sp)
            && ReadMemWord(m', r.seg.ss, SpUp(r.gp.sp)) == ReadMemWord(m, r.seg.ss, SpUp(r.gp.sp))
  {
    var sp := r.gp.sp;
    var down := SpDown(sp);
    StackWordsApart(r.seg.ss, sp, down);
    StackWordsApart(r.seg.ss, SpUp(sp), down);
    WordReadOther(m, r.seg.ss, down, v, r.seg.ss, sp);
    WordReadOther(m, r.seg.ss, down, v, r.seg.ss, SpUp(sp));
  }

  /** The frame reads back from the new top of stack upwards: return address,
      CS, FLAGS. */
  lemma {:induction false} PushFrameReads(r: Regs, m: Mem, flags: int, cs: int, ret: int)
    requires Ok(r, m) && IsWord(flags) && IsWord(cs) && IsWord(ret)
    ensures var (r', m') := PushFrame(r, m, flags, cs, ret);
            && ReadMemWord(m', r.seg.ss, r'.gp.sp) == ret
            && ReadMemWord(m', r.seg.ss, SpUp(r'.gp.sp)) == cs
            && ReadMemWord(m', r.seg.ss, SpUp(SpUp(r'.gp.sp))) == flags
            && SpUp(SpUp(SpUp(r'.gp.sp))) == r.gp.sp
  {
    var (r1, m1) := Push(r, m, flags);
    var (r2, m2) := Push(r1, m1, cs);
    PushKeeps(r1, m1, cs);
    PushKeeps(r2, m2, ret);
  }

  /** InvokeInterrupt after the PIC step: drop the segment override, push FLAGS,
      CS and the return address (REP's restart address while a REP is active, which
      ends the REP), clear I and T, and load IP:CS from the vector at n*4. */
  function Interrupt(r: Regs, m: Mem, retIp: int, n: nat): (res: (Regs, Mem))
    requires Ok(r, m) && IsWord(retIp)
    ensures Ok(res.0, res.1)
  {
    var ret := if r.rep.active then r.rep.addr else retIp;
    var (r1, m1) := PushFrame(r, m, FlagsValue(r.flags), r.seg.cs, ret);
    var a := n * 4;
    (r1.(ip := ReadMemWord(m1, 0, a),
         seg := r1.seg.(cs := ReadMemWord(m1, 0, Low16(a + 2)), overrideSet := false),
         flags := r1.flags[FLAG_I := false][FLAG_T := false],
         rep := r1.rep.(active := false)),
     m1)
  }

  /** The IRET special case of Tick: pop IP, CS and FLAGS, then FixFlags. */
  function Iret(r: Regs, m: Mem): (res: Regs)
    requires Ok(r, m)
    ensures res.Valid()
  {
    var (r1, ip) := Pop(r, m);
    var (r2, cs) := Pop(r1, m);
    var (r3, f) := Pop(r2, m);
    r3.(ip := ip, seg := r3.seg.(cs := cs), flags := Fixed(WordFlags(f, 16)))
  }

  /** Offsets within one segment map to distinct linear addresses. */
  lemma {:induction false} LinearInjective(seg: int, a: int, b: int)
    requires IsWord(seg) && 0 <= a <= 0x10000 && 0 <= b <= 0x10000 && a != b
    ensures Linear(seg, a) != Linear(seg, b)
  {
    assert 0 <= seg * 16 + a < MEM_SIZE;
    assert 0 <= seg * 16 + b < MEM_SIZE;
  }

  /** Two stack slots 2 or 4 bytes apart (modulo 0x10000) occupy disjoint linear
      bytes. */
  lemma {:induction false} StackWordsApart(seg: int, a: int, b: int)
    requires IsWord(seg) && IsWord(a) && IsWord(b)
    requires b == SpDown(a) || b == SpDown(SpDown(a))
    ensures Linear(seg, a) != Linear(seg, b) && Linear(seg, a) != Linear(seg, b + 1)
    ensures Linear(seg, a + 1) != Linear(seg, b) && Linear(seg, a + 1) != Linear(seg, b + 1)
  {
    LinearInjective(seg, a, b);
    LinearInjective(seg, a, b + 1);
    LinearInjective(seg, a + 1, b);
    LinearInjective(seg, a + 1, b + 1);
  }

  /** The registers InvokeInterrupt leaves: IP from the vector, IF and TF
      clear, the HLT state and the clock as they were. */
  lemma InterruptEntry(r: Regs, m: Mem, retIp: int, n: nat)
    requires Ok(r, m) && IsWord(retIp)
    ensures var (r', m') := Interrupt(r, m, retIp, n);
            && r'.ip == ReadMemWord(m', 0, n * 4) && !r'.flags[FLAG_I] && !r'.flags[FLAG_T]
            && r'.inHlt == r.inHlt && r'.clock == r.clock
  {
  }

  /** The vector of interrupt n is the pair of words at linear n*4 and n*4+2, and
      the three words InvokeInterrupt leaves at SS:SP are the return address, the
      old CS and the old FLAGS; I, T, REP and the override are cleared and the
      general and other segment registers keep their values. */
  lemma {:induction false} InterruptFrame(r: Regs, m: Mem, retIp: int, n: nat)
    requires Ok(r, m) && IsWord(retIp)
    ensures var (r', m') := Interrupt(r, m, retIp, n);
            && r'.ip == ReadMemWord(m', 0, n * 4)
            && r'.seg.cs == ReadMemWord(m', 0, Low16(n * 4 + 2))
            && r'.gp == r.gp.(sp := SpDown(SpDown(SpDown(r.gp.sp))))
            && ReadMemWord(m', r.seg.ss, r'.gp.sp) == (if r.rep.active then r.rep.addr else retIp)
            && ReadMemWord(m', r.seg.ss, SpUp(r'.gp.sp)) == r.seg.cs
            && ReadMemWord(m', r.seg.ss, SpUp(SpUp(r'.gp.sp))) == FlagsWord(r.flags)
            && SpUp(SpUp(SpUp(r'.gp.sp))) == r.gp.sp
            && !r'.flags[FLAG_I] && !r'.flags[FLAG_T] && !r'.rep.active
            && r'.seg == r.seg.(cs := r'.seg.cs, overrideSet := false)
            && (forall j :: 0 <= j < 16 && j != FLAG_I && j != FLAG_T ==> r'.flags[j] == r.flags[j])
  {
    PushFrameReads(r, m, FlagsValue(r.flags), r.seg.cs, if r.rep.active then r.rep.addr else retIp);
  }

  /** IRET straight after InvokeInterrupt returns to the interrupted code: IP is
      the return address, CS, SP and the general registers are restored and FLAGS
      is the saved word after FixFlags. */
  lemma {:induction false} IretAfterInterrupt(r: Regs, m: Mem, retIp: int, n: nat)
    requires Ok(r, m) && IsWord(retIp)
    ensures var (r', m') := Interrupt(r, m, retIp, n);
            var back := Iret(r', m');
            && back.ip == (if r.rep.active then r.rep.addr else retIp)
            && back.seg == r.seg.(overrideSet := false)
            && back.gp == r.gp
            && back.flags == Fixed(r.flags)
  {
    InterruptFrame(r, m, retIp, n);
    WordFlagsRoundTrip(r.flags);
  }

  // ---------------------------------------------------------------- REP prefix

  predicate IsPrefix(b: int) { b == 0x26 || b == 0x2e || b == 0x36 || b == 0x3e || b == 0xf2 || b == 0xf3 }

  /** MOVS, CMPS, STOS, LODS, SCAS (byte and word). */
  predicate IsStringOp(b: int) {
    b == 0xa4 || b == 0xa5 || b == 0xa6 || b == 0xa7 || b == 0xaa ||
    b == 0xab || b == 0xac || b == 0xad || b == 0xae || b == 0xaf
  }

  /** CMPS and SCAS: the string instructions that set Z. */
  predicate IsCompareString(b: int) { b == 0xa6 || b == 0xa7 || b == 0xae || b == 0xaf }

  /** The state change one prefix byte makes before the next byte is fetched. */
  function PrefixMark(r: Regs, prefix: int): (r': Regs)
    requires r.Valid() && IsPrefix(prefix)
    ensures r'.Valid() && r'.ip == r.ip && r'.seg.cs == r.seg.cs
  {
    if prefix == 0x26 then r.(seg := r.seg.(override := r.seg.es))
    else if prefix == 0x2e then r.(seg := r.seg.(override := r.seg.cs))
    else if prefix == 0x36 then r.(seg := r.seg.(override := r.seg.ss))
    else if prefix == 0x3e then r.(seg := r.seg.(override := r.seg.ds))
    else r.(rep := r.rep.(active := true, mode := NotSet, doNothing := r.gp.CX() == 0))
  }

  /** The state change after the byte following the prefix was fetched. */
  function PrefixSettle(r: Regs, prefix: int, next: int, instrStart: int): (r': Regs)
    requires r.Valid() && IsPrefix(prefix) && IsWord(instrStart)
    ensures r'.Valid() && r'.ip == r.ip && r'.seg.cs == r.seg.cs
  {
    if prefix == 0xf2 then
      r.(rep := r.rep.(opcode := next, addr := instrStart, mode := if IsCompareString(next) then REPNZ else REP))
    else if prefix == 0xf3 then
      r.(rep := r.rep.(opcode := next, addr := instrStart, mode := if IsCompareString(next) then REPE_Z else REP))
    else
      r.(rep := r.rep.(opcode := next), seg := r.seg.(overrideSet := true))
  }

  /** One pass of Tick's prefix loop for prefix byte `prefix`: record the segment
      override or the REP state and fetch the next byte.  Returns (regs, next byte,
      cycles this prefix costs). */
  function PrefixStep(r: Regs, m: Mem, prefix: int, instrStart: int): (res: (Regs, int, int))
    requires Ok(r, m) && IsPrefix(prefix) && IsWord(instrStart)
    ensures res.0.Valid() && IsByte(res.1)
    ensures res.0.ip == (r.ip + 1) % 0x10000 && res.0.seg.cs == r.seg.cs
    ensures res.1 == ReadMemByte(m, r.seg.cs, r.ip)
  {
    var (r1, next) := PcByte(PrefixMark(r, prefix), m);
    (PrefixSettle(r1, prefix, next, instrStart), next, if prefix == 0xf2 || prefix == 0xf3 then 9 else 2)
  }

  /** F2/F3 select REPNZ/REPE in front of CMPS/SCAS and plain REP in front of
      anything else, remember the instruction start and note a zero CX. */
  lemma RepPrefixEffect(r: Regs, m: Mem, prefix: int, instrStart: int)
    requires Ok(r, m) && (prefix == 0xf2 || prefix == 0xf3) && IsWord(instrStart)
    ensures var (r', next, _) := PrefixStep(r, m, prefix, instrStart);
            && r'.rep.active && r'.rep.addr == instrStart && r'.rep.opcode == next
            && (r'.rep.doNothing <==> r.gp.CX() == 0)
            && r'.rep.mode == (if !IsCompareString(next) then REP else if prefix == 0xf2 then REPNZ else REPE_Z)
            && r'.seg == r.seg && r'.gp == r.gp
  {
    var r1 := PrefixMark(r, prefix);
    assert r1 == r.(rep := r.rep.(active := true, mode := NotSet, doNothing := r.gp.CX() == 0));
    var (r2, next) := PcByte(r1, m);
    assert r2.rep == r1.rep && r2.seg == r.seg && r2.gp == r.gp;
  }

  /** A segment prefix activates the override with the named register. */
  lemma SegmentPrefixEffect(r: Regs, m: Mem, prefix: int, instrStart: int)
    requires Ok(r, m) && IsPrefix(prefix) && prefix != 0xf2 && prefix != 0xf3 && IsWord(instrStart)
    ensures var (r', next, _) := PrefixStep(r, m, prefix, instrStart);
            && r'.seg.overrideSet
            && r'.seg.override == (if prefix == 0x26 then r.seg.es else if prefix == 0x2e then r.seg.cs
                                   else if prefix == 0x36 then r.seg.ss else r.seg.ds)
            && r'.rep == r.rep.(opcode := next) && r'.gp == r.gp
  {
  }

  /** PrefixEnd: after a string instruction REPE stops when Z is clear and REPNZ
      when Z is set; any other instruction ends REP.  A finished REP drops the
      segment override, a running one sends IP back to the prefix. */
  function PrefixEnd(r: Regs, opcode: int): (res: Regs)
    requires r.Valid()
    ensures res.Valid()
    ensures res.rep.active <==> (r.rep.active && IsStringOp(opcode)
                                 && !(r.rep.mode == REPE_Z && !r.flags[FLAG_Z])
                                 && !(r.rep.mode == REPNZ && r.flags[FLAG_Z]))
    ensures res.rep.active ==> res.ip == r.rep.addr && res.seg == r.seg
    ensures !res.rep.active ==> res.ip == r.ip && res.seg == r.seg.(overrideSet := false)
  {
    var r1 :=
      if IsStringOp(opcode) then
        if r.rep.mode == REPE_Z && !r.flags[FLAG_Z] then r.(rep := r.rep.(active := false))
        else if r.rep.mode == REPNZ && r.flags[FLAG_Z] then r.(rep := r.rep.(active := false))
        else r
      else r.(rep := r.rep.(active := false));
    var r2 := if !r1.rep.active then r1.(seg := r1.seg.(overrideSet := false)) else r1;
    if r2.rep.active then r2.(ip := r2.rep.addr) else r2
  }

  /** PrefixEnd changes nothing but the REP-active bit, IP and the override. */
  lemma PrefixEndFrame(r: Regs, opcode: int)
    requires r.Valid()
    ensures var res := PrefixEnd(r, opcode);
            res == r.(rep := r.rep.(active := res.rep.active), ip := res.ip, seg := res.seg)
  {
  }

  /** CX - 1 modulo 0x10000, worked on the two halves CH:CL. */
  function DecCX(g: GpRegs): (g': GpRegs)
    requires g.Valid()
    ensures g'.Valid()
    ensures g' == g.(ch := g'.ch, cl := g'.cl)
  {
    if g.cl > 0 then g.(cl := g.cl - 1)
    else if g.ch > 0 then g.(ch := g.ch - 1, cl := 0xFF)
    else g.(ch := 0xFF, cl := 0xFF)
  }

  predicate CxIsZero(g: GpRegs) { g.ch == 0 && g.cl == 0 }

  /** DecCX is the 16-bit decrement of CX, and reaches zero exactly from CX = 1. */
  lemma DecCXMeaning(g: GpRegs)
    requires g.Valid()
    ensures DecCX(g).CX() == (g.CX() + 0xFFFF) % 0x10000
    ensures CxIsZero(DecCX(g)) <==> g.CX() == 1
    ensures CxIsZero(g) <==> g.CX() == 0
  {
    var c := g.CX();
    var d := DecCX(g);
    assert c == g.ch * 256 + g.cl;
    assert d.CX() == d.ch * 256 + d.cl;
    WordDecrement(c);
  }

  lemma WordDecrement(c: int)
    requires 0 <= c < 0x10000
    ensures (c + 0xFFFF) % 0x10000 == (if c == 0 then 0xFFFF else c - 1)
  {
  }

  /** PrefixMustRun: a REP with CX = 0 at the prefix runs nothing; otherwise CX
      counts down and REP ends at 0 (or on an unknown mode).  The answer is
      whether the string step runs.  (CX is decremented modulo 0x10000.) */
  function PrefixMustRun(r: Regs): (res: (Regs, bool))
    requires r.Valid()
    ensures res.0.Valid() && !res.0.rep.doNothing
    ensures !r.rep.active ==> res == (r.(rep := r.rep.(doNothing := false)), true)
    ensures r.rep.active && r.rep.doNothing ==> res == (r.(rep := r.rep.(active := false, doNothing := false)), false)
    ensures r.rep.active && !r.rep.doNothing ==>
              && res.0 == r.(gp := DecCX(r.gp), rep := r.rep.(active := res.0.rep.active, doNothing := false))
              && (res.1 <==> CxIsZero(DecCX(r.gp)) || r.rep.mode != NotSet)
              && (res.0.rep.active <==> !CxIsZero(DecCX(r.gp)) && r.rep.mode != NotSet)
  {
    if r.rep.active then
      if r.rep.doNothing then (r.(rep := r.rep.(active := false, doNothing := false)), false)
      else
        var g := DecCX(r.gp);
        var known := r.rep.mode == REPE_Z || r.rep.mode == REPNZ || r.rep.mode == REP;
        var active := if CxIsZero(g) then false else known;
        var run := if CxIsZero(g) then true else known;
        (r.(gp := g, rep := r.rep.(active := active, doNothing := false)), run)
    else (r.(rep := r.rep.(doNothing := false)), true)
  }

  /** A plain REP with CX = n > 0 runs the string step and counts CX down by one;
      it stays active exactly while CX remains above zero. */
  lemma {:induction false} RepCountsDown(r: Regs)
    requires r.Valid() && r.rep.active && !r.rep.doNothing && r.rep.mode == REP && r.gp.CX() > 0
    ensures var (r', run) := PrefixMustRun(r);
            run && r'.gp.CX() == r.gp.CX() - 1 && (r'.rep.active <==> r.gp.CX() > 1) && r'.rep.mode == REP
  {
    DecCXMeaning(r.gp);
  }
}
