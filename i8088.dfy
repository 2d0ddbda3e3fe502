/** The processor object of i8088.py: its registers (a State8088 object), the
    memory it reads and writes, the interrupt controller it asks for pending
    levels, the IRQ lines of the attached devices, breakpoints and the stop
    reason.  Tick is specified first as a function over a snapshot of that state
    (TickSpec and its phases); the class below carries it out step by step, with
    the prefix loop as a `while` loop, and each method is proved to do what the
    function describes.  The instruction handlers themselves run as the
    functions of CpuOps. */
module I8088 {
  import opened Bits
  import opened State8088
  import opened CpuMemory
  import opened Alu
  import opened CpuCore
  import opened CpuOps
  import opened Pic

  datatype Option<T> = None | Some(value: T)

  /** Why the processor stopped (a message string in the source). */
  datatype StopReason = NoStop | BreakpointAt(addr: int) | NullOpcodes(count: int, addr: int)

  /** What one Tick reports: its cycle count, a stop (-1 in the source), a
      prefix loop that never ends, or an opcode whose handler lies outside this
      model. */
  datatype TickResult = Cycles(n: int) | Stopped | EndlessPrefixes | OutsideModel(opcode: int)

  /** Everything Tick may change: registers, memory, the controller's
      registers, the skip-one-breakpoint flag, the stop reason, and the calls
      made to io.Tick as (cycles, clock) pairs. */
  datatype Cpu = Cpu(r: Regs, m: Mem, pic: PicRegs, ignoreBp: bool, stop: StopReason, ticks: seq<(int, int)>)

  ghost predicate CpuOk(c: Cpu) { Ok(c.r, c.m) && c.pic.Valid() }

  /** What Tick reads and never changes: the IRQ lines of the devices, the
      breakpoints and terminate-on-off-the-rails. */
  datatype Config = Config(deviceIrqs: seq<int>, breakpoints: set<int>, terminate: bool)

  /** The prefix loop ends once IP has gone round the whole code segment: from
      there on it would fetch the same bytes again. */
  const PREFIX_FUEL: nat := 0x10000

  // ---------------------------------------------------------------- Tick, phase by phase

  /** Tick's interrupt check: with I set and interrupts not inhibited, a pending
      level that some device's IRQ line matches ends HLT and is delivered through
      vector level + offset (the controller marks it in service); the clock moves
      on by the 60 cycles this costs. */
  function IrqDelivery(c: Cpu, cfg: Config): (res: Option<Cpu>)
    requires CpuOk(c)
    ensures res.Some? ==> CpuOk(res.value)
  {
    if !c.r.flags[FLAG_I] || c.r.inhibitInterrupts then None
    else
      match PendingOf(c.pic)
      case FellOff => None
      case Level(n) =>
        if n == NOTHING_PENDING || n !in cfg.deviceIrqs then None
        else Some(Delivered(c, n))
  }

  /** The delivery of controller level n: HLT ends, the interrupt goes
      through vector n + offset, the controller marks n in service, and the
      clock moves on by 60 cycles. */
  function Delivered(c: Cpu, n: int): (c': Cpu)
    requires CpuOk(c) && 0 <= n < 8
    ensures CpuOk(c')
  {
    var i := Interrupt(c.r.(inHlt := false), c.m, c.r.ip, n + c.pic.intOffset);
    c.(r := i.0.Ticked(60), m := i.1, pic := Serviced(c.pic, n))
  }

  /** After a delivery the processor runs the handler the vector table
      names, with IF and TF clear, out of HLT, the clock 60 cycles on; the
      controller has n in service. */
  lemma DeliveredMeaning(c: Cpu, n: int)
    requires CpuOk(c) && 0 <= n < 8
    ensures var c' := Delivered(c, n);
            && !c'.r.inHlt && !c'.r.flags[FLAG_I] && !c'.r.flags[FLAG_T] && c'.r.clock == c.r.clock + 60
            && c'.r.ip == ReadMemWord(c'.m, 0, (n + c.pic.intOffset) * 4)
            && c'.pic == Serviced(c.pic, n) && c'.stop == c.stop && c'.ticks == c.ticks
  {
    InterruptEntry(c.r.(inHlt := false), c.m, c.r.ip, n + c.pic.intOffset);
  }

  /** The outcome of Tick's prefix loop: the registers, the first byte that is
      not a prefix, its linear address, the cycles the prefixes cost, and
      whether the loop ended within PREFIX_FUEL bytes. */
  datatype PrefixRun = PrefixRun(r: Regs, opcode: int, address: int, cycles: int, done: bool)

  /** Tick's prefix loop: while the byte is a prefix, record it and fetch the
      next one. */
  function Prefixes(r: Regs, m: Mem, opcode: int, instrStart: int, address: int, fuel: nat): (p: PrefixRun)
    requires Ok(r, m) && IsWord(instrStart)
    ensures Ok(p.r, m) && p.cycles >= 0
    ensures p.done <==> !IsPrefix(p.opcode)
    ensures p.r.clock == r.clock && p.r.seg.cs == r.seg.cs
    ensures p.done && IsPrefix(opcode) ==> p.opcode == ReadMemByte(m, r.seg.cs, (p.r.ip + 0xffff) % 0x10000)
    decreases fuel
  {
    if !IsPrefix(opcode) then PrefixRun(r, opcode, address, 0, true)
    else if fuel == 0 then PrefixRun(r, opcode, address, 0, false)
    else
      var a := Linear(r.seg.cs, r.ip);
      var s := PrefixStep(r, m, opcode, instrStart);
      var p := Prefixes(s.0, m, s.1, instrStart, a, fuel - 1);
      p.(cycles := s.2 + p.cycles)
  }

  /** The byte k places after offset ip in code segment cs, the offset
      wrapping at 64 KiB as GetPcByte wraps IP. */
  function SegmentByte(m: Mem, cs: int, ip: int, k: int): (b: int)
    requires ValidMem(m)
    ensures IsByte(b)
  { ReadMemByte(m, cs, (ip + k) % 0x10000) }

  /** The n bytes from CS:ip on are all segment or REP prefixes. */
  ghost predicate AllPrefixes(m: Mem, cs: int, ip: int, n: int)
    requires ValidMem(m)
  {
    forall k :: 0 <= k < n ==> IsPrefix(SegmentByte(m, cs, ip, k))
  }

  /** The prefix loop runs out of fuel exactly when the opcode and the next
      `fuel` bytes at CS:IP are all segment or REP prefixes. */
  lemma {:induction false} PrefixesOutOfFuel(r: Regs, m: Mem, opcode: int, instrStart: int, address: int, fuel: nat)
    requires Ok(r, m) && IsWord(instrStart)
    ensures !Prefixes(r, m, opcode, instrStart, address, fuel).done <==>
            IsPrefix(opcode) && AllPrefixes(m, r.seg.cs, r.ip, fuel)
    decreases fuel
  {
    if IsPrefix(opcode) && fuel > 0 {
      var s := PrefixStep(r, m, opcode, instrStart);
      var p := Prefixes(s.0, m, s.1, instrStart, Linear(r.seg.cs, r.ip), fuel - 1);
      assert Prefixes(r, m, opcode, instrStart, address, fuel).done == p.done;
      PrefixesOutOfFuel(s.0, m, s.1, instrStart, Linear(r.seg.cs, r.ip), fuel - 1);
      PrefixRunShifts(m, r.seg.cs, r.ip, fuel);
    }
  }

  /** `fuel` bytes from ip are the byte at ip and `fuel - 1` bytes from ip + 1. */
  lemma PrefixRunShifts(m: Mem, cs: int, ip: int, fuel: nat)
    requires ValidMem(m) && IsWord(ip) && fuel > 0
    ensures AllPrefixes(m, cs, ip, fuel) <==>
            IsPrefix(ReadMemByte(m, cs, ip)) && AllPrefixes(m, cs, (ip + 1) % 0x10000, fuel - 1)
  {
    var next := (ip + 1) % 0x10000;
    assert SegmentByte(m, cs, ip, 0) == ReadMemByte(m, cs, ip);
    forall k | 1 <= k < fuel
      ensures SegmentByte(m, cs, ip, k) == SegmentByte(m, cs, next, k - 1)
    {
      WrapOffset(ip, k);
    }
    if AllPrefixes(m, cs, next, fuel - 1) {
      forall k | 1 <= k < fuel ensures IsPrefix(SegmentByte(m, cs, ip, k)) {
        assert IsPrefix(SegmentByte(m, cs, next, k - 1));
      }
    }
    if AllPrefixes(m, cs, ip, fuel) {
      forall k | 0 <= k < fuel - 1 ensures IsPrefix(SegmentByte(m, cs, next, k)) {
        assert IsPrefix(SegmentByte(m, cs, ip, k + 1));
      }
    }
  }

  lemma WrapOffset(ip: int, k: int)
    ensures ((ip + 1) % 0x10000 + (k - 1)) % 0x10000 == (ip + k) % 0x10000
  {
    var q := (ip + 1) / 0x10000;
    assert ip + 1 == q * 0x10000 + (ip + 1) % 0x10000;
  }

  /** Every offset of a segment is reached from ip within 64 KiB steps. */
  lemma OffsetReached(ip: int, off: int)
    requires IsWord(ip) && IsWord(off)
    ensures var k := if off >= ip then off - ip else off - ip + 0x10000;
            0 <= k < 0x10000 && (ip + k) % 0x10000 == off
  {
  }

  /** So a Tick that reports EndlessPrefixes has found every byte of the code
      segment to be a segment or REP prefix: the source's prefix `while` loop
      would fetch them round the segment for ever.  (Tick's fuel is
      PREFIX_FUEL, one whole segment.) */
  lemma EndlessPrefixMeaning(r: Regs, m: Mem, opcode: int, instrStart: int, address: int, fuel: nat)
    requires Ok(r, m) && IsWord(instrStart) && fuel >= 0x10000
    requires !Prefixes(r, m, opcode, instrStart, address, fuel).done
    ensures IsPrefix(opcode)
    ensures forall off :: 0 <= off < 0x10000 ==> IsPrefix(ReadMemByte(m, r.seg.cs, off))
  {
    PrefixesOutOfFuel(r, m, opcode, instrStart, address, fuel);
    WholeSegment(m, r.seg.cs, r.ip, fuel);
  }

  /** A run of at least 64 KiB bytes from ip covers every offset of the
      segment. */
  lemma WholeSegment(m: Mem, cs: int, ip: int, fuel: nat)
    requires ValidMem(m) && IsWord(ip) && fuel >= 0x10000
    requires AllPrefixes(m, cs, ip, fuel)
    ensures forall off :: 0 <= off < 0x10000 ==> IsPrefix(ReadMemByte(m, cs, off))
  {
    forall off | 0 <= off < 0x10000
      ensures IsPrefix(ReadMemByte(m, cs, off))
    {
      var k := if off >= ip then off - ip else off - ip + 0x10000;
      OffsetReached(ip, off);
      assert IsPrefix(SegmentByte(m, cs, ip, k));
    }
  }

  /** The rest of Tick once the opcode is known: the null-opcode check, then
      RunSpec. */
  function ExecuteSpec(c: Cpu, cfg: Config, opcode: int, address: int, cycles: int): (res: (Cpu, TickResult))
    requires CpuOk(c)
    ensures CpuOk(res.0)
  {
    var cc := CrashCheck(c.r.crashCounter, opcode, cfg.terminate);
    var r1 := c.r.(crashCounter := cc.0);
    if cc.1 then (c.(r := r1, stop := NullOpcodes(cc.0, address)), Stopped)
    else RunSpec(c.(r := r1), opcode, cycles)
  }

  /** The handler of the opcode, then FinishSpec. */
  function RunSpec(c: Cpu, opcode: int, cycles: int): (res: (Cpu, TickResult))
    requires CpuOk(c)
    ensures CpuOk(res.0)
  {
    match Dispatch(c.r, c.m, opcode)
    case Outside => (c, OutsideModel(opcode))
    case Ran(e, back) => FinishSpec(c, e, back, opcode, cycles)
  }

  /** After the handler left `e`: PrefixEnd, the zero-cycle clamp, the clock
      and io.Tick, then TraceTrap. */
  function FinishSpec(c: Cpu, e: Exec, back: bool, opcode: int, cycles: int): (res: (Cpu, TickResult))
    requires CpuOk(c) && Ok(e.r, e.m)
    ensures CpuOk(res.0)
  {
    var f := Finished(e, back, opcode, cycles);
    (c.(r := f.0, m := f.1, ticks := c.ticks + [(f.2, f.3)]), Cycles(f.2))
  }

  /** The registers and memory FinishSpec leaves, the cycle count of the
      instruction and the clock io.Tick is given. */
  function Finished(e: Exec, back: bool, opcode: int, cycles: int): (res: (Regs, Mem, int, int))
    requires Ok(e.r, e.m)
    ensures Ok(res.0, res.1)
    ensures res.2 == ClampCycles(cycles + e.cycles) && res.3 == res.0.clock == e.r.clock + res.2
  {
    var r2 := PrefixEnd(e.r, opcode);
    var n := ClampCycles(cycles + e.cycles);
    var r3 := r2.(clock := r2.clock + n);
    var t := TraceTrap(r3, e.m, back);
    (t.0, t.1, n, r3.clock)
  }

  /** The trace trap: with T set, after an instruction that did not just
      switch T on (POPF, IRET) and outside an interrupt inhibit, interrupt 1 is
      taken with the current IP as return address. */
  function TraceTrap(r: Regs, m: Mem, back: bool): (res: (Regs, Mem))
    requires Ok(r, m)
    ensures Ok(res.0, res.1) && res.0.clock == r.clock
  {
    if r.flags[FLAG_T] && !back && !r.inhibitInterrupts then Interrupt(r, m, r.ip, 1) else (r, m)
  }

  /** Fetch, breakpoint check, prefixes and execution of one instruction.  The
      breakpoint is checked at the instruction's first byte after that byte was
      fetched, and one breakpoint hit is skipped after ignoreBp was set. */
  function StepSpec(c: Cpu, cfg: Config): (res: (Cpu, TickResult))
    requires CpuOk(c)
    ensures CpuOk(res.0)
  {
    var instrStart := c.r.ip;
    var f := PcByte(c.r, c.m);
    if !c.ignoreBp && instrStart in cfg.breakpoints then
      (c.(r := f.0, stop := BreakpointAt(instrStart)), Stopped)
    else
      var p := Prefixes(f.0, c.m, f.1, instrStart, Linear(c.r.seg.cs, c.r.ip), PREFIX_FUEL);
      var c2 := c.(r := p.r, ignoreBp := false);
      if !p.done then (c2, EndlessPrefixes)
      else ExecuteSpec(c2, cfg, p.opcode, p.address, p.cycles)
  }

  /** Tick: deliver a pending interrupt, or idle two cycles in HLT, or run one
      instruction. */
  function TickSpec(c: Cpu, cfg: Config): (res: (Cpu, TickResult))
    requires CpuOk(c)
    ensures CpuOk(res.0)
  {
    match IrqDelivery(c, cfg)
    case Some(c1) => (c1, Cycles(60))
    case None => UndeliveredTick(c, cfg)
  }

  /** A tick that delivered no interrupt: the one-instruction interrupt
      shadow ends, then a halted processor idles two cycles (the devices
      still tick) and a running one executes an instruction. */
  function UndeliveredTick(c: Cpu, cfg: Config): (res: (Cpu, TickResult))
    requires CpuOk(c)
    ensures CpuOk(res.0)
  {
    var c1 := c.(r := c.r.(inhibitInterrupts := false));
    if c1.r.inHlt then
      var clock := c1.r.clock + 2;
      (c1.(r := c1.r.(clock := clock), ticks := c1.ticks + [(2, clock)]), Cycles(2))
    else StepSpec(c1, cfg)
  }

  /** The cycle count Tick reports is what the clock moved on by; unless the
      tick delivered an interrupt (which returns before the devices tick),
      io.Tick was called once, with that count and the new clock. */
  lemma TickClock(c: Cpu, cfg: Config)
    requires CpuOk(c)
    ensures var (c', t) := TickSpec(c, cfg);
            t.Cycles? ==>
              && c'.r.clock == c.r.clock + t.n
              && (if IrqDelivery(c, cfg).Some? then t.n == 60 && c'.ticks == c.ticks
                  else c'.ticks == c.ticks + [(t.n, c'.r.clock)])
  {
    if IrqDelivery(c, cfg).None? && !c.r.inHlt {
      StepClock(c.(r := c.r.(inhibitInterrupts := false)), cfg);
    }
  }

  lemma StepClock(c: Cpu, cfg: Config)
    requires CpuOk(c)
    ensures var (c', t) := StepSpec(c, cfg);
            t.Cycles? ==> c'.r.clock == c.r.clock + t.n && c'.ticks == c.ticks + [(t.n, c'.r.clock)]
  {
    var f := PcByte(c.r, c.m);
    if !(!c.ignoreBp && c.r.ip in cfg.breakpoints) {
      var p := Prefixes(f.0, c.m, f.1, c.r.ip, Linear(c.r.seg.cs, c.r.ip), PREFIX_FUEL);
      if p.done {
        ExecuteClock(c.(r := p.r, ignoreBp := false), cfg, p.opcode, p.address, p.cycles);
      }
    }
  }

  lemma ExecuteClock(c: Cpu, cfg: Config, opcode: int, address: int, cycles: int)
    requires CpuOk(c)
    ensures var (c', t) := ExecuteSpec(c, cfg, opcode, address, cycles);
            t.Cycles? ==> c'.r.clock == c.r.clock + t.n && c'.ticks == c.ticks + [(t.n, c'.r.clock)]
  {
    var cc := CrashCheck(c.r.crashCounter, opcode, cfg.terminate);
    var c1 := c.(r := c.r.(crashCounter := cc.0));
    if !cc.1 {
      match Dispatch(c1.r, c1.m, opcode)
      case Outside =>
      case Ran(e, back) =>
        assert e.r.clock == c1.r.clock;
    }
  }

  /** An interrupt is delivered exactly when I is set, interrupts are not
      inhibited and the controller's pending level is the IRQ line of some
      device; what happens then is Delivered of that level. */
  lemma DeliveryMeaning(c: Cpu, cfg: Config)
    requires CpuOk(c)
    ensures IrqDelivery(c, cfg).Some? <==>
              && c.r.flags[FLAG_I] && !c.r.inhibitInterrupts
              && PendingOf(c.pic).Level? && PendingOf(c.pic).n != NOTHING_PENDING
              && PendingOf(c.pic).n in cfg.deviceIrqs
    ensures IrqDelivery(c, cfg).Some? ==> IrqDelivery(c, cfg).value == Delivered(c, PendingOf(c.pic).n)
  {
  }

  /** In HLT with nothing to deliver, Tick lets two cycles pass and changes
      nothing else but the interrupt inhibit. */
  lemma HaltIdles(c: Cpu, cfg: Config)
    requires CpuOk(c) && c.r.inHlt && IrqDelivery(c, cfg).None?
    ensures var (c', t) := TickSpec(c, cfg);
            && t == Cycles(2) && c'.m == c.m && c'.pic == c.pic && c'.stop == c.stop
            && c'.r == c.r.(inhibitInterrupts := false, clock := c.r.clock + 2)
  {
  }

  /** A breakpoint at the instruction's first byte stops Tick with only that
      byte fetched: memory, the controller and the devices are left alone. */
  lemma BreakpointStops(c: Cpu, cfg: Config)
    requires CpuOk(c) && IrqDelivery(c, cfg).None? && !c.r.inHlt && !c.ignoreBp
    requires c.r.ip in cfg.breakpoints
    ensures var (c', t) := TickSpec(c, cfg);
            && t == Stopped && c'.stop == BreakpointAt(c.r.ip)
            && c'.m == c.m && c'.pic == c.pic && c'.ticks == c.ticks
            && c'.r == c.r.(ip := (c.r.ip + 1) % 0x10000, inhibitInterrupts := false)
  {
  }

  /** After the front end set the skip flag, the next instruction runs even at
      a breakpoint, and the flag is used up. */
  lemma IgnoredBreakpointRuns(c: Cpu, cfg: Config)
    requires CpuOk(c) && IrqDelivery(c, cfg).None? && !c.r.inHlt && c.ignoreBp && c.stop == NoStop
    ensures var (c', t) := TickSpec(c, cfg);
            !c'.ignoreBp && !c'.stop.BreakpointAt?
  {
  }

  // ---------------------------------------------------------------- the processor object

  /** The i8088 object.  Its registers live in the State8088 object `st`, which
      it updates in place; `mem` is the memory it reads and writes, `pic` the
      interrupt controller of its IO object, `deviceIrqs` the IRQ line of each
      attached device, and `ioTicks` the calls it made to io.Tick. */
  class I8088 {
    const st: State8088
    var mem: Mem
    const pic: I8259
    const deviceIrqs: seq<int>
    var breakpoints: set<int>
    var ignoreBreakpoints: bool
    var stopReason: StopReason
    const terminateOnOffTheRails: bool
    var ioTicks: seq<(int, int)>

    ghost predicate Valid()
      reads this, st, pic
    {
      st.Valid() && ValidMem(mem) && pic.Valid()
    }

    /** The part of the object Tick may change, as a value. */
    function Snapshot(): Cpu
      reads this, st, pic
    {
      Cpu(st.regs, mem, pic.regs, ignoreBreakpoints, stopReason, ioTicks)
    }

    function Cfg(): Config
      reads this
    {
      Config(deviceIrqs, breakpoints, terminateOnOffTheRails)
    }

    /** Zeroed registers with bit 1 of FLAGS set; running with IO enables the
        stop on a run of null opcodes. */
    constructor (m: Mem, p: I8259, irqs: seq<int>, runIO: bool)
      requires ValidMem(m) && p.Valid()
      ensures Valid() && fresh(st) && pic == p && mem == m
      ensures st.regs == Zeroed().(flags := Zeroed().flags[1 := true])
      ensures deviceIrqs == irqs && breakpoints == {} && !ignoreBreakpoints && stopReason == NoStop
      ensures terminateOnOffTheRails == runIO && ioTicks == []
    {
      breakpoints := {};
      ignoreBreakpoints := false;
      stopReason := NoStop;
      var s := new State8088();
      st := s;
      mem := m;
      pic := p;
      deviceIrqs := irqs;
      terminateOnOffTheRails := runIO;
      ioTicks := [];
      new;
      st.SetFlag(1, true);
    }

    /** GetPcByte: the byte at CS:IP, IP moving on within the segment. */
    method GetPcByte() returns (b: int)
      requires Valid()
      modifies st
      ensures Valid() && (st.regs, b) == PcByte(old(st.regs), mem)
    {
      var ip := st.regs.ip;
      st.regs := st.regs.(ip := (st.regs.ip + 1) % 0x10000);
      b := ReadMemByte(mem, st.regs.seg.cs, ip);
    }

    /** push: SP drops by two, then the word is written at SS:SP. */
    method Push(v: int)
      requires Valid() && IsWord(v)
      modifies st, this`mem
      ensures Valid() && (st.regs, mem) == CpuCore.Push(old(st.regs), old(mem), v)
    {
      st.regs := st.regs.(gp := st.regs.gp.(sp := SpDown(st.regs.gp.sp)));
      mem := WriteMemWord(mem, st.regs.seg.ss, st.regs.gp.sp, v);
    }

    /** pop: the word at SS:SP, then SP rises by two. */
    method Pop() returns (v: int)
      requires Valid()
      modifies st
      ensures Valid() && (st.regs, v) == CpuCore.Pop(old(st.regs), mem)
    {
      v := ReadMemWord(mem, st.regs.seg.ss, st.regs.gp.sp);
      st.regs := st.regs.(gp := st.regs.gp.(sp := SpUp(st.regs.gp.sp)));
    }

    /** The three pushes of InvokeInterrupt; a running REP is resumed at its
        prefix and ends here. */
    method PushInterruptFrame(instrStart: int)
      requires Valid() && IsWord(instrStart)
      modifies st, this`mem
      ensures Valid()
      ensures var r := old(st.regs);
              && st.regs == r.(gp := r.gp.(sp := SpDown(SpDown(SpDown(r.gp.sp)))), rep := r.rep.(active := false))
              && mem == InterruptFrameMem(r, old(mem), instrStart)
    {
      Push(st.GetFlags());
      Push(st.regs.seg.cs);
      if st.regs.rep.active {
        Push(st.regs.rep.addr);
        st.regs := st.regs.(rep := st.regs.rep.(active := false));
      } else {
        Push(instrStart);
      }
    }

    /** InvokeInterrupt: for a controller interrupt, level n is marked in
        service and the vector is n plus the controller's offset; then the
        frame is pushed and IP:CS loaded from the vector table. */
    method InvokeInterrupt(instrStart: int, n: int, fromPic: bool)
      requires Valid() && IsWord(instrStart) && n >= 0 && (fromPic ==> n < 8)
      modifies st, this`mem, pic
      ensures Valid()
      ensures pic.regs == (if fromPic then Serviced(old(pic.regs), n) else old(pic.regs))
      ensures var i := Interrupt(old(st.regs), old(mem), instrStart,
                                 if fromPic then n + old(pic.regs.intOffset) else n);
              st.regs == i.0 && mem == i.1
    {
      ghost var offset := pic.regs.intOffset;
      var vector := n;
      if fromPic {
        pic.SetIRQBeingServiced(n);
        vector := n + pic.GetInterruptOffset();
        assert vector == n + offset;
      }
      EnterVector(instrStart, vector);
    }

    /** Whether some attached device has IRQ line `irq`: Tick's scan over the
        devices, which stops at the first match. */
    method IrqClaimed(irq: int) returns (claimed: bool)
      ensures claimed <==> irq in deviceIrqs
    {
      var i := 0;
      while i < |deviceIrqs|
        invariant 0 <= i <= |deviceIrqs|
        invariant irq !in deviceIrqs[..i]
      {
        if deviceIrqs[i] == irq {
          return true;
        }
        assert deviceIrqs[..i + 1] == deviceIrqs[..i] + [deviceIrqs[i]];
        i := i + 1;
      }
      assert deviceIrqs[..i] == deviceIrqs;
      return false;
    }

    /** Tick's interrupt check, carried out: ask the controller, look for a
        device on that line, and deliver. */
    method CheckInterrupt() returns (delivered: bool)
      requires Valid()
      modifies st, this`mem, pic
      ensures Valid()
      ensures var d := IrqDelivery(old(Snapshot()), Cfg());
              && (delivered <==> d.Some?)
              && (delivered ==> st.regs == d.value.r && mem == d.value.m && pic.regs == d.value.pic)
              && (!delivered ==> st.regs == old(st.regs) && mem == old(mem) && pic.regs == old(pic.regs))
    {
      delivered := false;
      if st.regs.flags[FLAG_I] && !st.regs.inhibitInterrupts {
        var irq := pic.GetPendingInterrupt();
        if irq.Level? && irq.n != NOTHING_PENDING {
          var claimed := IrqClaimed(irq.n);
          if claimed {
            Deliver(irq.n);
            delivered := true;
          }
        }
      }
    }

    /** The delivery of controller level n: out of HLT, the interrupt, and
        the 60 cycles it costs. */
    method Deliver(n: int)
      requires Valid() && 0 <= n < 8
      modifies st, this`mem, pic
      ensures Valid()
      ensures var r1 := old(st.regs).(inHlt := false);
              var i := Interrupt(r1, old(mem), r1.ip, n + old(pic.regs).intOffset);
              && st.regs == i.0.Ticked(60) && mem == i.1
              && pic.regs == Serviced(old(pic.regs), n)
    {
      LeaveHaltAndInterrupt(n);
      AddClock(60);
    }

    /** Out of HLT, then controller interrupt n. */
    method LeaveHaltAndInterrupt(n: int)
      requires Valid() && 0 <= n < 8
      modifies st, this`mem, pic
      ensures Valid()
      ensures var r1 := old(st.regs).(inHlt := false);
              var i := Interrupt(r1, old(mem), r1.ip, n + old(pic.regs).intOffset);
              && st.regs == i.0 && mem == i.1
              && pic.regs == Serviced(old(pic.regs), n)
    {
      st.regs := st.regs.(inHlt := false);
      InvokeInterrupt(st.regs.ip, n, true);
    }

    /** Advances the cycle counter by c and changes nothing else. */
    method AddClock(c: int)
      requires Valid()
      modifies st
      ensures Valid() && st.regs == old(st.regs).Ticked(c)
    {
      st.regs := st.regs.(clock := st.regs.clock + c);
    }

    /** One pass of the prefix loop: record the override or the REP state,
        fetch the next byte and settle the REP mode on it. */
    method ApplyPrefix(prefix: int, instrStart: int) returns (next: int, cost: int)
      requires Valid() && IsPrefix(prefix) && IsWord(instrStart)
      modifies st
      ensures Valid()
      ensures (st.regs, next, cost) == PrefixStep(old(st.regs), mem, prefix, instrStart)
    {
      cost := 0;
      if prefix == 0x26 {
        st.regs := st.regs.(seg := st.regs.seg.(override := st.regs.seg.es));
      } else if prefix == 0x2e {
        st.regs := st.regs.(seg := st.regs.seg.(override := st.regs.seg.cs));
      } else if prefix == 0x36 {
        st.regs := st.regs.(seg := st.regs.seg.(override := st.regs.seg.ss));
      } else if prefix == 0x3e {
        st.regs := st.regs.(seg := st.regs.seg.(override := st.regs.seg.ds));
      } else {
        st.regs := st.regs.(rep := st.regs.rep.(active := true, mode := NotSet, doNothing := st.GetCX() == 0));
        cost := 9;
      }
      next := GetPcByte();
      st.regs := st.regs.(rep := st.regs.rep.(opcode := next));
      if prefix == 0xf2 {
        st.regs := st.regs.(rep := st.regs.rep.(addr := instrStart, mode := if IsCompareString(next) then REPNZ else REP));
      } else if prefix == 0xf3 {
        st.regs := st.regs.(rep := st.regs.rep.(addr := instrStart, mode := if IsCompareString(next) then REPE_Z else REP));
      } else {
        st.regs := st.regs.(seg := st.regs.seg.(overrideSet := true));
        cost := 2;
      }
    }

    /** The prefix loop of Tick, run for at most `fuel` prefix bytes. */
    method PrefixLoop(first: int, instrStart: int, address0: int, fuel: nat) returns (opcode: int, address: int, cycles: int)
      requires Valid() && IsWord(instrStart)
      modifies st
      ensures Valid()
      ensures var p := Prefixes(old(st.regs), mem, first, instrStart, address0, fuel);
              st.regs == p.r && opcode == p.opcode && address == p.address && cycles == p.cycles
    {
      opcode, address, cycles := first, address0, 0;
      var left := fuel;
      ghost var goal := Prefixes(st.regs, mem, first, instrStart, address0, fuel);
      while IsPrefix(opcode) && left > 0
        invariant Valid()
        invariant var p := Prefixes(st.regs, mem, opcode, instrStart, address, left);
                  p.(cycles := cycles + p.cycles) == goal
        decreases left
      {
        address := Linear(st.regs.seg.cs, st.regs.ip);
        var next, cost := ApplyPrefix(opcode, instrStart);
        cycles := cycles + cost;
        opcode := next;
        left := left - 1;
      }
    }

    /** PrefixEnd, carried out on the state object. */
    method PrefixEnd(opcode: int)
      requires Valid()
      modifies st
      ensures Valid() && st.regs == CpuCore.PrefixEnd(old(st.regs), opcode)
    {
      if IsStringOp(opcode) {
        if st.regs.rep.mode == REPE_Z {
          if !st.regs.flags[FLAG_Z] {
            st.regs := st.regs.(rep := st.regs.rep.(active := false));
          }
        } else if st.regs.rep.mode == REPNZ {
          if st.regs.flags[FLAG_Z] {
            st.regs := st.regs.(rep := st.regs.rep.(active := false));
          }
        }
      } else {
        st.regs := st.regs.(rep := st.regs.rep.(active := false));
      }
      if !st.regs.rep.active {
        st.regs := st.regs.(seg := st.regs.seg.(overrideSet := false));
      }
      if st.regs.rep.active {
        st.regs := st.regs.(ip := st.regs.rep.addr);
      }
    }

    /** Everything Tick does once the opcode is known. */
    method Execute(opcode: int, address: int, cycles: int) returns (res: TickResult)
      requires Valid()
      modifies this`stopReason, this`mem, this`ioTicks, st
      ensures Valid() && pic.regs == old(pic.regs)
      ensures var x := ExecuteSpec(old(Snapshot()), Cfg(), opcode, address, cycles);
              && st.regs == x.0.r && mem == x.0.m && ioTicks == x.0.ticks && stopReason == x.0.stop && res == x.1
    {
      if opcode == 0 {
        if terminateOnOffTheRails {
          st.regs := st.regs.(crashCounter := st.regs.crashCounter + 1);
          if st.regs.crashCounter >= 5 {
            stopReason := NullOpcodes(st.regs.crashCounter, address);
            return Stopped;
          }
        }
      } else {
        st.regs := st.regs.(crashCounter := 0);
      }
      ghost var c0 := old(Snapshot());
      ghost var cc := CrashCheck(c0.r.crashCounter, opcode, terminateOnOffTheRails);
      assert !cc.1 && Snapshot() == c0.(r := c0.r.(crashCounter := cc.0));
      res := Run(opcode, cycles);
    }

    /** The handler of the opcode, then Finish. */
    method Run(opcode: int, cycles: int) returns (res: TickResult)
      requires Valid()
      modifies this`mem, this`ioTicks, st
      ensures Valid() && pic.regs == old(pic.regs)
      ensures var x := RunSpec(old(Snapshot()), opcode, cycles);
              && st.regs == x.0.r && mem == x.0.m && ioTicks == x.0.ticks && res == x.1
    {
      var d := Dispatch(st.regs, mem, opcode);
      if d.Outside? {
        return OutsideModel(opcode);
      }
      res := Finish(d.e, d.backFromTrace, opcode, cycles);
    }

    /** Finish, carried out once the handler's registers and memory are known. */
    method Finish(e: Exec, back: bool, opcode: int, cycles: int) returns (res: TickResult)
      requires Valid() && Ok(e.r, e.m)
      modifies this`mem, this`ioTicks, st
      ensures Valid() && pic.regs == old(pic.regs)
      ensures var f := Finished(e, back, opcode, cycles);
              st.regs == f.0 && mem == f.1 && ioTicks == old(ioTicks) + [(f.2, f.3)] && res == Cycles(f.2)
    {
      st.regs := e.r;
      mem := e.m;
      var n := EndInstruction(opcode, cycles + e.cycles);
      TakeTraceTrap(back);
      return Cycles(n);
    }

    /** PrefixEnd, the zero-cycle clamp, the clock and the call to io.Tick. */
    method EndInstruction(opcode: int, total: int) returns (n: int)
      requires Valid()
      modifies this`ioTicks, st
      ensures Valid() && n == ClampCycles(total)
      ensures var r2 := CpuCore.PrefixEnd(old(st.regs), opcode);
              st.regs == r2.(clock := r2.clock + n) && ioTicks == old(ioTicks) + [(n, st.regs.clock)]
    {
      PrefixEnd(opcode);
      n := total;
      if n == 0 {
        n := 1;
      }
      st.regs := st.regs.(clock := st.regs.clock + n);
      ioTicks := ioTicks + [(n, st.regs.clock)];
    }

    /** The trace trap at the end of Tick. */
    method TakeTraceTrap(back: bool)
      requires Valid()
      modifies this`mem, st
      ensures Valid() && (st.regs, mem) == TraceTrap(old(st.regs), old(mem), back)
    {
      if st.regs.flags[FLAG_T] && !back && !st.regs.inhibitInterrupts {
        EnterVector(st.regs.ip, 1);
      }
    }

    /** Fetch, breakpoint check, prefix loop and execution. */
    method Step() returns (res: TickResult)
      requires Valid()
      modifies this`stopReason, this`mem, this`ioTicks, this`ignoreBreakpoints, st
      ensures Valid() && pic.regs == old(pic.regs)
      ensures (Snapshot(), res) == StepSpec(old(Snapshot()), Cfg())
    {
      ghost var c := Snapshot();
      var instrStart := st.regs.ip;
      var address := Linear(st.regs.seg.cs, st.regs.ip);
      var opcode := GetPcByte();
      ghost var f := PcByte(c.r, c.m);
      assert f == (st.regs, opcode);
      ghost var p := Prefixes(st.regs, mem, opcode, instrStart, address, PREFIX_FUEL);
      if ignoreBreakpoints {
        ignoreBreakpoints := false;
      } else if instrStart in breakpoints {
        stopReason := BreakpointAt(instrStart);
        return Stopped;
      }
      var cycles;
      opcode, address, cycles := PrefixLoop(opcode, instrStart, address, PREFIX_FUEL);
      ghost var c2 := c.(r := p.r, ignoreBp := false);
      assert Snapshot() == c2;
      if IsPrefix(opcode) {
        return EndlessPrefixes;
      }
      res := Execute(opcode, address, cycles);
    }

    /** Tick: one interrupt delivery, two idle cycles in HLT, or one
        instruction. */
    method Tick() returns (res: TickResult)
      requires Valid()
      modifies this`stopReason, this`mem, this`ioTicks, this`ignoreBreakpoints, st, pic
      ensures Valid()
      ensures (Snapshot(), res) == TickSpec(old(Snapshot()), Cfg())
    {
      var delivered := CheckInterrupt();
      if delivered {
        return Cycles(60);
      }
      res := RunOrIdle();
    }

    /** The rest of Tick once no interrupt was delivered. */
    method RunOrIdle() returns (res: TickResult)
      requires Valid()
      modifies this`stopReason, this`mem, this`ioTicks, this`ignoreBreakpoints, st
      ensures Valid() && pic.regs == old(pic.regs)
      ensures (Snapshot(), res) == UndeliveredTick(old(Snapshot()), Cfg())
    {
      st.regs := st.regs.(inhibitInterrupts := false);
      if st.regs.inHlt {
        st.regs := st.regs.(clock := st.regs.clock + 2);
        ioTicks := ioTicks + [(2, st.regs.clock)];
        return Cycles(2);
      }
      res := Step();
    }

    /** Reset: execution restarts at F000:FFF0, out of HLT, with no override
        and no REP. */
    method Reset()
      requires Valid()
      modifies st
      ensures Valid()
      ensures var r := old(st.regs);
              st.regs == r.(ip := 0xfff0, seg := r.seg.(cs := 0xf000, overrideSet := false),
                            inHlt := false, rep := r.rep.(active := false))
    {
      st.regs := st.regs.(seg := st.regs.seg.(cs := 0xf000));
      st.regs := st.regs.(ip := 0xfff0);
      st.regs := st.regs.(inHlt := false);
      st.regs := st.regs.(seg := st.regs.seg.(overrideSet := false));
      st.regs := st.regs.(rep := st.regs.rep.(active := false));
    }

    /** GetStopReason: the reason of the last stop, cleared on reading. */
    method GetStopReason() returns (reason: StopReason)
      modifies this`stopReason
      ensures reason == old(stopReason) && stopReason == NoStop
    {
      reason := stopReason;
      stopReason := NoStop;
    }

    /** The part of InvokeInterrupt after the controller step. */
    method EnterVector(instrStart: int, vector: nat)
      requires Valid() && IsWord(instrStart)
      modifies st, this`mem
      ensures Valid()
      ensures (st.regs, mem) == Interrupt(old(st.regs), old(mem), instrStart, vector)
    {
      ghost var r0 := st.regs;
      ghost var m0 := mem;
      st.regs := st.regs.(seg := st.regs.seg.(overrideSet := false));
      FrameIgnoresOverride(r0, m0, instrStart);
      PushInterruptFrame(instrStart);
      LoadVector(vector);
      InterruptUnfolded(r0, m0, instrStart, vector);
    }

    /** Clears IF and TF and loads IP and CS from entry `vector` of the
        table at address 0. */
    method LoadVector(vector: nat)
      requires Valid()
      modifies st
      ensures Valid()
      ensures var r := old(st.regs);
              st.regs == r.(ip := ReadMemWord(mem, 0, vector * 4),
                            seg := r.seg.(cs := ReadMemWord(mem, 0, Low16(vector * 4 + 2))),
                            flags := r.flags[FLAG_I := false][FLAG_T := false])
    {
      st.SetFlagI(false);
      st.SetFlagT(false);
      var addr := vector * 4;
      st.regs := st.regs.(ip := ReadMemWord(mem, 0, addr));
      st.regs := st.regs.(seg := st.regs.seg.(cs := ReadMemWord(mem, 0, Low16(addr + 2))));
    }
  }

  /** The memory after InvokeInterrupt's three pushes. */
  function InterruptFrameMem(r: Regs, m: Mem, instrStart: int): (m': Mem)
    requires Ok(r, m) && IsWord(instrStart)
    ensures ValidMem(m')
  {
    PushFrame(r, m, FlagsValue(r.flags), r.seg.cs, if r.rep.active then r.rep.addr else instrStart).1
  }

  /** The segment-override prefix plays no part in the frame pushed. */
  lemma FrameIgnoresOverride(r: Regs, m: Mem, instrStart: int)
    requires Ok(r, m) && IsWord(instrStart)
    ensures InterruptFrameMem(r.(seg := r.seg.(overrideSet := false)), m, instrStart)
            == InterruptFrameMem(r, m, instrStart)
  {
  }

  /** Interrupt as a single record update of the registers. */
  lemma InterruptUnfolded(r: Regs, m: Mem, retIp: int, n: nat)
    requires Ok(r, m) && IsWord(retIp)
    ensures var m' := InterruptFrameMem(r, m, retIp);
            Interrupt(r, m, retIp, n) ==
              (r.(gp := r.gp.(sp := SpDown(SpDown(SpDown(r.gp.sp)))),
                  ip := ReadMemWord(m', 0, n * 4),
                  seg := r.seg.(cs := ReadMemWord(m', 0, Low16(n * 4 + 2)), overrideSet := false),
                  flags := r.flags[FLAG_I := false][FLAG_T := false],
                  rep := r.rep.(active := false)),
               m')
  {
  }
}
