/** The 8259 programmable interrupt controller (i8259.py): the request (IRR),
    in-service (ISR) and mask (IMR) registers, the ICW1..ICW4 initialisation
    sequence on ports 0x20/0x21, the OCW2 end-of-interrupt commands, the OCW3
    read select, and the fixed-priority choice of the next interrupt.

    The three 8-bit registers are sequences of 8 booleans, bit i at index i; a
    port read returns their value as a byte (State8088.FlagsWord).  A byte
    written to port 0x20 is first decoded into the command its bits select. */
module Pic {
  import opened Bits
  import opened State8088

  /** GetPendingInterrupt's answer: a level, 255 for "nothing", or the case in
      which its loop ends without a return statement (Python's None). */
  datatype Pending = Level(n: int) | FellOff

  const NOTHING_PENDING: int := 255

  const ALL_CLEAR: seq<bool> := [false, false, false, false, false, false, false, false]
  const ALL_SET: seq<bool> := [true, true, true, true, true, true, true, true]

  /** The whole register file of the controller. */
  datatype PicRegs = PicRegs(
    intOffset: int,
    irr: seq<bool>, isr: seq<bool>, imr: seq<bool>,
    autoEoi: bool, irqRequestLevel: int, readIrr: bool, hasSlave: bool,
    intInService: int,
    icw1: int, inInit: bool, iiIcw2: bool, icw2: int, iiIcw3: bool, icw3: int,
    iiIcw4: bool, icw4: int, iiIcw4Req: bool, ocw2: int, ocw3: int)
  {
    ghost predicate Valid() {
      |irr| == 8 && |isr| == 8 && |imr| == 8 && -1 <= intInService < 8 && IsByte(intOffset)
    }
  }

  /** The state after construction: every level masked, vector offset 8. */
  function Initial(): (s: PicRegs)
    ensures s.Valid()
    ensures forall j :: 0 <= j < 8 ==> s.imr[j] && !s.irr[j] && !s.isr[j]
    ensures s.intOffset == 8 && s.intInService == -1 && !s.autoEoi && !s.inInit
  {
    PicRegs(8, ALL_CLEAR, ALL_CLEAR, ALL_SET,
            false, 7, false, false, -1,
            0, false, false, 0, false, 0, false, 0, false, 0, 0)
  }

  /** Level i is requested, not in service and not masked. */
  predicate Qualifies(s: PicRegs, i: int)
    requires s.Valid() && 0 <= i < 8
  {
    s.irr[i] && !s.isr[i] && !s.imr[i]
  }

  /** The lowest qualifying level at or above i, or 8 when there is none. */
  function FirstQualifying(s: PicRegs, i: nat): (r: nat)
    requires s.Valid() && i <= 8
    ensures i <= r <= 8
    ensures r < 8 ==> Qualifies(s, r)
    ensures forall j :: i <= j < r ==> !Qualifies(s, j)
    decreases 8 - i
  {
    if i == 8 then 8
    else if Qualifies(s, i) then i
    else FirstQualifying(s, i + 1)
  }

  predicate AnyRequest(s: PicRegs)
    requires s.Valid()
  {
    exists i :: 0 <= i < 8 && s.irr[i]
  }

  /** GetPendingInterrupt: nothing while IRR is empty or a level is in service;
      otherwise the lowest qualifying level (level 0 has the highest priority). */
  function PendingOf(s: PicRegs): (r: Pending)
    requires s.Valid()
    ensures r == Level(NOTHING_PENDING) <==> !AnyRequest(s) || s.intInService != -1
    ensures r.Level? && r.n != NOTHING_PENDING ==>
              0 <= r.n < 8 && Qualifies(s, r.n) && forall j :: 0 <= j < r.n ==> !Qualifies(s, j)
    ensures r.FellOff? <==> AnyRequest(s) && s.intInService == -1 && forall j :: 0 <= j < 8 ==> !Qualifies(s, j)
  {
    if !AnyRequest(s) || s.intInService != -1 then Level(NOTHING_PENDING)
    else
      var k := FirstQualifying(s, 0);
      if k < 8 then Level(k) else FellOff
  }

  /** RequestInterruptPIC: sets IRR bit n. */
  function Request(s: PicRegs, n: int): (r: PicRegs)
    requires s.Valid() && 0 <= n < 8
    ensures r.Valid()
  {
    s.(irr := s.irr[n := true])
  }

  /** SetIRQBeingServiced: marks level n in service, or with automatic EOI
      acknowledges it at once. */
  function Serviced(s: PicRegs, n: int): (r: PicRegs)
    requires s.Valid() && 0 <= n < 8
    ensures r.Valid()
  {
    if !s.autoEoi then s.(intInService := n, isr := s.isr[n := true])
    else s.(irr := s.irr[n := false], isr := s.isr[n := false], intInService := -1)
  }

  /** IO_Read: port 0x20 gives IRR or ISR as chosen by OCW3, port 0x21 the IMR,
      any other port 0. */
  function Read(s: PicRegs, addr: int): (r: int)
    requires s.Valid()
    ensures IsByte(r)
  {
    Pow2Values();
    if addr == 0x20 then FlagsWord(if s.readIrr then s.irr else s.isr)
    else if addr == 0x21 then FlagsWord(s.imr)
    else 0
  }

  /** End of interrupt for level i: its IRR and ISR bits are cleared. */
  function Acknowledge(s: PicRegs, i: int): (r: PicRegs)
    requires s.Valid() && 0 <= i < 8
    ensures r.Valid()
  {
    s.(irr := s.irr[i := false], isr := s.isr[i := false])
  }

  /** A byte written to port 0x20, decoded: bit 4 set is ICW1 (bit 0: ICW4
      needed, bit 1: single controller), otherwise bit 3 set is OCW3 (read IRR
      when the low two bits are 2), otherwise OCW2 (bit 5: EOI, bit 6:
      specific, bits 0-2: level). */
  datatype Command =
    | Icw1(value: int, icw4Needed: bool, single: bool)
    | Ocw3(value: int, single: bool, selectIrr: bool)
    | Ocw2(value: int, single: bool, eoi: bool, specific: bool, level: int)

  function DecodeCommand(value: int): (c: Command)
    requires IsByte(value)
    ensures c.value == value && (c.single <==> HasBit(value, 2))
    ensures c.Icw1? <==> HasBit(value, 16)
    ensures c.Icw1? ==> (c.icw4Needed <==> HasBit(value, 1))
    ensures c.Ocw3? <==> !HasBit(value, 16) && HasBit(value, 8)
    ensures c.Ocw3? ==> (c.selectIrr <==> value % 4 == 2)
    ensures c.Ocw2? ==> (c.eoi <==> HasBit(value, 0x20)) && (c.specific <==> HasBit(value, 0x40)) && c.level == value % 8
  {
    if HasBit(value, 16) then Icw1(value, HasBit(value, 1), HasBit(value, 2))
    else if HasBit(value, 8) then Ocw3(value, HasBit(value, 2), value % 4 == 2)
    else Ocw2(value, HasBit(value, 2), HasBit(value, 0x20), HasBit(value, 0x40), value % 8)
  }

  /** The end-of-interrupt part of OCW2: the specific form acknowledges the
      given level, the other form the level in service. */
  function Eoi(s: PicRegs, specific: bool, level: int): (r: PicRegs)
    requires s.Valid() && 0 <= level < 8
    ensures r.Valid()
  {
    if specific then
      var a := Acknowledge(s, level);
      if level == s.intInService then a.(intInService := -1) else a
    else if s.intInService != -1 then
      Acknowledge(s, s.intInService).(intInService := -1)
    else s
  }

  /** IO_Write on port 0x20, for a decoded command. */
  function Command20(s: PicRegs, c: Command): (r: PicRegs)
    requires s.Valid() && (c.Ocw2? ==> 0 <= c.level < 8)
    ensures r.Valid()
  {
    var t := s.(inInit := c.Icw1?, hasSlave := !c.single, icw1 := c.value);
    match c
    case Icw1(_, icw4Needed, _) =>
      t.(iiIcw2 := false, iiIcw3 := false, iiIcw4 := false, iiIcw4Req := icw4Needed,
         imr := ALL_CLEAR, isr := ALL_CLEAR, irr := ALL_CLEAR, intInService := -1)
    case Ocw3(_, _, selectIrr) =>
      t.(readIrr := selectIrr, ocw3 := c.value)
    case Ocw2(_, _, eoi, specific, level) =>
      var u := t.(irqRequestLevel := level, ocw2 := c.value);
      if eoi then Eoi(u, specific, level) else u
  }

  /** IO_Write on port 0x21: during initialisation ICW2 (the vector offset), then
      ICW3 when a slave is announced, then ICW4 (automatic EOI from bit 1);
      otherwise OCW1, the new mask. */
  function Write21(s: PicRegs, value: int): (r: PicRegs)
    requires s.Valid() && IsByte(value)
    ensures r.Valid()
  {
    if s.inInit then
      if !s.iiIcw2 then s.(icw2 := value, iiIcw2 := true, intOffset := value)
      else if !s.iiIcw3 && s.hasSlave then
        s.(iiIcw3 := true, icw3 := value, inInit := s.iiIcw4Req)
      else if !s.iiIcw4 then
        s.(iiIcw4 := true, icw4 := value, inInit := false, autoEoi := HasBit(value, 2))
      else s
    else
      s.(imr := WordFlags(value, 8))
  }

  /** IO_Write: the new register file after writing value to port addr. */
  function Write(s: PicRegs, addr: int, value: int): (r: PicRegs)
    requires s.Valid() && IsByte(value)
    ensures r.Valid()
  {
    if addr == 0x20 then Command20(s, DecodeCommand(value))
    else if addr == 0x21 then Write21(s, value)
    else s
  }

  // ------------------------------------------------------------------ lemmas

  /** A fresh controller has every level masked: a request cannot become
      pending (the scan falls off its end). */
  lemma {:induction false} InitialMasksAll(n: int)
    requires 0 <= n < 8
    ensures PendingOf(Request(Initial(), n)) == FellOff
  {
    var s := Request(Initial(), n);
    assert s.irr[n];
    assert forall j :: 0 <= j < 8 ==> !Qualifies(s, j);
  }

  /** A request on an unmasked idle level, with no qualifying lower level,
      becomes the pending interrupt. */
  lemma {:induction false} RequestBecomesPending(s: PicRegs, n: int)
    requires s.Valid() && 0 <= n < 8
    requires !s.imr[n] && !s.isr[n] && s.intInService == -1
    requires forall j :: 0 <= j < n ==> !Qualifies(s, j)
    ensures PendingOf(Request(s, n)) == Level(n)
  {
    var r := Request(s, n);
    assert r.irr[n];
    assert Qualifies(r, n);
    forall j | 0 <= j < n
      ensures !Qualifies(r, j)
    {
      assert r.irr[j] == s.irr[j] && r.isr == s.isr && r.imr == s.imr;
      assert !Qualifies(s, j);
    }
  }

  /** Without automatic EOI a serviced level blocks every further interrupt
      until an end-of-interrupt command. */
  lemma ServiceBlocks(s: PicRegs, n: int)
    requires s.Valid() && 0 <= n < 8 && !s.autoEoi
    ensures PendingOf(Serviced(s, n)) == Level(NOTHING_PENDING)
  {
  }

  /** With automatic EOI servicing acknowledges the level at once: its IRR and
      ISR bits are clear, nothing is in service, and other levels keep theirs. */
  lemma {:induction false} AutoEoiAcknowledges(s: PicRegs, n: int)
    requires s.Valid() && 0 <= n < 8 && s.autoEoi
    ensures var r := Serviced(s, n); !r.irr[n] && !r.isr[n] && r.intInService == -1
    ensures var r := Serviced(s, n); forall j :: 0 <= j < 8 && j != n ==> r.irr[j] == s.irr[j] && r.isr[j] == s.isr[j]
  {
  }

  /** A non-specific EOI (OCW2 0x20) after servicing level n clears level n and
      frees the controller. */
  lemma {:induction false} NonSpecificEoiEndsService(s: PicRegs, n: int)
    requires s.Valid() && 0 <= n < 8 && !s.autoEoi
    ensures var r := Write(Serviced(s, n), 0x20, 0x20);
            !r.irr[n] && !r.isr[n] && r.intInService == -1 && !r.inInit
  {
    var t := Serviced(s, n);
    assert t.intInService == n;
    var c := DecodeCommand(0x20);
    assert c == Ocw2(0x20, false, true, false, 0);
  }

  /** A specific EOI (OCW2 0x60 | i) clears level i; it frees the controller when
      i is the level in service. */
  lemma {:induction false} SpecificEoi(s: PicRegs, i: int)
    requires s.Valid() && 0 <= i < 8
    ensures var r := Write(s, 0x20, 0x60 + i);
            !r.irr[i] && !r.isr[i] && r.irqRequestLevel == i
            && (r.intInService == if s.intInService == i then -1 else s.intInService)
  {
    var v := 0x60 + i;
    assert !HasBit(v, 16) && !HasBit(v, 8) && HasBit(v, 0x20) && HasBit(v, 0x40);
    assert v % 8 == i;
  }

  /** ICW1 (bit 4 set) enters initialisation and empties IRR, ISR and IMR. */
  lemma {:induction false} Icw1Resets(s: PicRegs, value: int)
    requires s.Valid() && IsByte(value) && HasBit(value, 16)
    ensures var r := Write(s, 0x20, value);
            r.inInit && !r.iiIcw2 && r.intInService == -1
            && (r.hasSlave <==> !HasBit(value, 2)) && (r.iiIcw4Req <==> HasBit(value, 1))
            && forall j :: 0 <= j < 8 ==> !r.irr[j] && !r.isr[j] && !r.imr[j]
  {
  }

  /** The PC BIOS sequence: ICW1 0x13 (single controller, ICW4 needed), ICW2 8,
      ICW4 9 ends initialisation with vector offset 8 and no automatic EOI; the
      next 0x21 write is the mask. */
  lemma {:induction false} BiosInitSequence(s: PicRegs, mask: int)
    requires s.Valid() && IsByte(mask)
    ensures var r := Write(Write(Write(Write(s, 0x20, 0x13), 0x21, 8), 0x21, 9), 0x21, mask);
            !r.inInit && r.intOffset == 8 && !r.autoEoi && FlagsWord(r.imr) == mask
  {
    assert DecodeCommand(0x13) == Icw1(0x13, true, true);
    assert !HasBit(9, 2);
    Pow2Values();
    FlagsWordRoundTrip(mask, 8);
  }

  /** ICW1 0x12 (single controller, no ICW4): initialisation does not end after
      ICW2, so the following mask write is taken as ICW4 and IMR stays 0. */
  lemma {:induction false} NoIcw4MaskTakenAsIcw4(s: PicRegs, mask: int)
    requires s.Valid() && IsByte(mask)
    ensures var r := Write(Write(Write(s, 0x20, 0x12), 0x21, 8), 0x21, mask);
            !r.inInit && r.icw4 == mask && forall j :: 0 <= j < 8 ==> !r.imr[j]
  {
    assert DecodeCommand(0x12) == Icw1(0x12, false, true);
  }

  /** OCW3 selects the register port 0x20 reads: IRR iff the low two bits are 2. */
  lemma {:induction false} Ocw3SelectsRead(s: PicRegs, value: int)
    requires s.Valid() && IsByte(value) && !HasBit(value, 16) && HasBit(value, 8)
    ensures Read(Write(s, 0x20, value), 0x20) == FlagsWord(if value % 4 == 2 then s.irr else s.isr)
    ensures Read(Write(s, 0x20, value), 0x21) == FlagsWord(s.imr)
  {
  }

  /** Outside initialisation a port 0x21 write is the mask, read back unchanged. */
  lemma {:induction false} MaskRoundTrip(s: PicRegs, value: int)
    requires s.Valid() && IsByte(value) && !s.inInit
    ensures Read(Write(s, 0x21, value), 0x21) == value
  {
    Pow2Values();
    FlagsWordRoundTrip(value, 8);
  }

  // ------------------------------------------------------------------ the device

  /** The controller object.  Its register file is updated in place by the port
      writes and by the processor's interrupt acknowledge. */
  class I8259 {
    var regs: PicRegs

    ghost predicate Valid()
      reads this
    {
      regs.Valid()
    }

    constructor ()
      ensures Valid() && regs == Initial()
    {
      regs := Initial();
    }

    /** The controller is a port device only: it has no IRQ line of its own. */
    function GetIRQNumber(): (r: int)
      ensures r < 0
    { -1 }

    /** The controller answers ports 0x20 and 0x21. */
    function RegisterDevice(): (ports: seq<int>)
      ensures forall p :: p in ports <==> p == 0x20 || p == 0x21
    { [0x20, 0x21] }

    /** The controller has no memory range and no Tick. */
    function GetAddressList(): (r: seq<(int, int)>)
      ensures r == []
    { [] }

    function Ticks(): (r: bool)
      ensures !r
    { false }

    function ReadByte(offset: int): (r: int)
      ensures r == 0xee
    { 0xee }

    /** The level of the last OCW2. */
    function GetInterruptLevel(): (r: int)
      reads this
      requires Valid()
      ensures r == regs.irqRequestLevel
    { regs.irqRequestLevel }

    /** The mask register as a byte: bit i set when level i is masked. */
    function GetInterruptMask(): (r: int)
      reads this
      requires Valid()
      ensures IsByte(r) && r == Read(regs, 0x21)
      ensures forall i :: 0 <= i < 8 ==> (regs.imr[i] <==> BitSet(r, i))
    {
      Pow2Values();
      WordFlagsRoundTrip(regs.imr);
      FlagsWord(regs.imr)
    }

    function GetInterruptOffset(): (r: int)
      reads this
      ensures r == regs.intOffset
    { regs.intOffset }

    /** The scan over the eight levels, lowest first. */
    method GetPendingInterrupt() returns (r: Pending)
      requires Valid()
      ensures r == PendingOf(regs)
    {
      var anyRequest := false;
      var k := 0;
      while k < 8
        invariant 0 <= k <= 8
        invariant anyRequest <==> exists j :: 0 <= j < k && regs.irr[j]
      {
        if regs.irr[k] {
          anyRequest := true;
        }
        k := k + 1;
      }
      if !anyRequest || regs.intInService != -1 {
        return Level(NOTHING_PENDING);
      }
      var i := 0;
      while i < 8
        invariant 0 <= i <= 8
        invariant FirstQualifying(regs, 0) >= i
      {
        if regs.irr[i] && !regs.isr[i] && !regs.imr[i] {
          return Level(i);
        }
        i := i + 1;
      }
      return FellOff;
    }

    method RequestInterruptPIC(n: int)
      requires Valid() && 0 <= n < 8
      modifies this
      ensures Valid() && regs == Request(old(regs), n)
    {
      regs := regs.(irr := regs.irr[n := true]);
    }

    method SetIRQBeingServiced(n: int)
      requires Valid() && 0 <= n < 8
      modifies this
      ensures Valid() && regs == Serviced(old(regs), n)
    {
      if !regs.autoEoi {
        regs := regs.(intInService := n);
        regs := regs.(isr := regs.isr[n := true]);
      } else {
        regs := regs.(irr := regs.irr[n := false]);
        regs := regs.(isr := regs.isr[n := false]);
        regs := regs.(intInService := -1);
      }
    }

    function IO_Read(addr: int): (r: int)
      reads this
      requires Valid()
      ensures r == Read(regs, addr)
    {
      Pow2Values();
      if addr == 0x20 then (if regs.readIrr then FlagsWord(regs.irr) else FlagsWord(regs.isr))
      else if addr == 0x21 then FlagsWord(regs.imr)
      else 0
    }

    /** Always answers True: a reconfiguration forces an interrupt recheck. */
    method IO_Write(addr: int, value: int) returns (r: bool)
      requires Valid() && IsByte(value)
      modifies this
      ensures Valid() && regs == Write(old(regs), addr, value)
      ensures r
    {
      if addr == 0x20 {
        WriteCommand(DecodeCommand(value));
      } else if addr == 0x21 {
        WriteData(value);
      }
      r := true;
    }

    /** Port 0x20: ICW1, OCW3 or OCW2. */
    method WriteCommand(c: Command)
      requires Valid() && (c.Ocw2? ==> 0 <= c.level < 8)
      modifies this
      ensures Valid() && regs == Command20(old(regs), c)
    {
      regs := regs.(inInit := c.Icw1?, hasSlave := !c.single, icw1 := c.value);
      if regs.inInit {
        regs := regs.(iiIcw2 := false, iiIcw3 := false, iiIcw4 := false, iiIcw4Req := c.icw4Needed,
                      imr := ALL_CLEAR, isr := ALL_CLEAR, irr := ALL_CLEAR, intInService := -1);
      } else if c.Ocw3? {
        regs := regs.(readIrr := c.selectIrr, ocw3 := c.value);
      } else {
        regs := regs.(irqRequestLevel := c.level, ocw2 := c.value);
        if c.eoi {
          EndOfInterrupt(c.specific, c.level);
        }
      }
    }

    /** The EOI part of OCW2. */
    method EndOfInterrupt(specific: bool, level: int)
      requires Valid() && 0 <= level < 8
      modifies this
      ensures Valid() && regs == Eoi(old(regs), specific, level)
    {
      if specific {
        regs := regs.(irr := regs.irr[level := false], isr := regs.isr[level := false]);
        if level == regs.intInService {
          regs := regs.(intInService := -1);
        }
      } else if regs.intInService != -1 {
        var i := regs.intInService;
        regs := regs.(irr := regs.irr[i := false], isr := regs.isr[i := false], intInService := -1);
      }
    }

    /** Port 0x21: the initialisation words, or the mask. */
    method WriteData(value: int)
      requires Valid() && IsByte(value)
      modifies this
      ensures Valid() && regs == Write21(old(regs), value)
    {
      if regs.inInit {
        if !regs.iiIcw2 {
          regs := regs.(icw2 := value);
          regs := regs.(iiIcw2 := true);
          regs := regs.(intOffset := value);
        } else if !regs.iiIcw3 && regs.hasSlave {
          regs := regs.(iiIcw3 := true);
          regs := regs.(icw3 := value);
          if !regs.iiIcw4Req {
            regs := regs.(inInit := false);
          }
        } else if !regs.iiIcw4 {
          regs := regs.(iiIcw4 := true);
          regs := regs.(icw4 := value);
          regs := regs.(inInit := false);
          regs := regs.(autoEoi := HasBit(value, 2));
        }
      } else {
        regs := regs.(imr := WordFlags(value, 8));
      }
    }
  }
}
