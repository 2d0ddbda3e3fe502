/** The XT keyboard (keyboard.py): a FIFO of scancodes filled by the front
    end, read one code at a time through port 0x60; port 0x61 bits 6 (the
    keyboard clock line) and 7 (acknowledge) drive the reset handshake and
    the clearing of the last code; every delivered code and the reset reply
    schedule an IRQ 1 that Tick raises once its delay has elapsed, unless
    bit 7 of port 0x61 holds the keyboard off.

    The device's own ports are claimed by the 8255 PPI, which forwards
    them here. */
module Keyboard {
  import opened Bits
  import Device
  import Pic

  const IRQ: int := 1
  /** Cycles before the reset reply (1 ms at 4.77 MHz). */
  const RESET_IRQ_DELAY: int := 4770
  /** Cycles before a pushed key interrupts: 4770000 / 50. */
  const KEY_IRQ_DELAY: int := 95400
  /** The power-on reset reply. */
  const RESET_REPLY: int := 0xaa

  /** The keyboard's state: the scancode FIFO, the code last read, the
      clock-line flag, the last value written to port 0x61, and the pending
      interrupt delays inherited from the device base. */
  datatype KbState = KbState(buffer: seq<int>, lastScanCode: int, clockLow: bool, bits61: int,
                             nextInterrupt: seq<int>)

  const INITIAL: KbState := KbState([], 0, false, 0, [])

  /** PushKeyboardScancode: the code joins the FIFO and an interrupt is
      scheduled for it. */
  function Push(s: KbState, code: int): (r: KbState)
    ensures r.buffer == s.buffer + [code]
    ensures r.nextInterrupt == Device.Scheduled(s.nextInterrupt, KEY_IRQ_DELAY)
    ensures r.lastScanCode == s.lastScanCode && r.clockLow == s.clockLow && r.bits61 == s.bits61
  {
    s.(buffer := s.buffer + [code], nextInterrupt := Device.Scheduled(s.nextInterrupt, KEY_IRQ_DELAY))
  }

  /** IO_Write: only port 0x61 matters.  Bit 6 low pulls the clock low;
      bit 6 high after a low clock is a reset, which empties the FIFO down to
      the reset reply and schedules its interrupt; bit 7 clears the last
      code.  The answer is always False. */
  function Write(s: KbState, port: int, value: int): (r: KbState)
    ensures port != 0x61 ==> r == s
    ensures port == 0x61 ==> r.bits61 == value
    ensures port == 0x61 && !HasBit(value, 0x40) ==> r.clockLow && r.buffer == s.buffer && r.nextInterrupt == s.nextInterrupt
    ensures port == 0x61 && HasBit(value, 0x40) && s.clockLow ==>
              !r.clockLow && r.buffer == [RESET_REPLY] &&
              r.nextInterrupt == Device.Scheduled(s.nextInterrupt, RESET_IRQ_DELAY)
    ensures port == 0x61 && HasBit(value, 0x40) && !s.clockLow ==>
              !r.clockLow && r.buffer == s.buffer && r.nextInterrupt == s.nextInterrupt
    ensures port == 0x61 ==> r.lastScanCode == (if HasBit(value, 0x80) then 0 else s.lastScanCode)
  {
    if port != 0x61 then s
    else
      var s1 := s.(bits61 := value);
      var s2 :=
        if !HasBit(value, 0x40) then s1.(clockLow := true)
        else if s1.clockLow then
          s1.(clockLow := false, buffer := [RESET_REPLY],
              nextInterrupt := Device.Scheduled(s1.nextInterrupt, RESET_IRQ_DELAY))
        else s1;
      if HasBit(value, 0x80) then s2.(lastScanCode := 0) else s2
  }

  /** IO_Read: port 0x60 takes the next code from the FIFO (and remembers
      it), or repeats the last one when the FIFO is empty; 0x61 returns what
      was last written there, 0x64 answers 0x10 and any other port 0. */
  function Read(s: KbState, port: int): (r: (KbState, int))
    ensures port == 0x60 && |s.buffer| > 0 ==>
              r == (s.(buffer := s.buffer[1..], lastScanCode := s.buffer[0]), s.buffer[0])
    ensures port == 0x60 && |s.buffer| == 0 ==> r == (s, s.lastScanCode)
    ensures port != 0x60 ==> r.0 == s
    ensures port == 0x61 ==> r.1 == s.bits61
    ensures port == 0x64 ==> r.1 == 0x10
    ensures port !in {0x60, 0x61, 0x64} ==> r.1 == 0
  {
    if port == 0x60 then
      if |s.buffer| > 0 then (s.(buffer := s.buffer[1..], lastScanCode := s.buffer[0]), s.buffer[0])
      else (s, s.lastScanCode)
    else if port == 0x61 then (s, s.bits61)
    else if port == 0x64 then (s, 0x10)
    else (s, 0)
  }

  /** Tick: with bit 7 of port 0x61 clear, the head delay counts down and
      the answer says whether IRQ 1 is requested; with it set nothing
      happens. */
  function TickSpec(s: KbState, cycles: int): (r: (KbState, bool))
    ensures HasBit(s.bits61, 0x80) ==> r == (s, false)
    ensures !HasBit(s.bits61, 0x80) ==>
              (r.0.nextInterrupt, r.1) == Device.CheckScheduled(s.nextInterrupt, cycles) &&
              r.0 == s.(nextInterrupt := r.0.nextInterrupt)
  {
    if HasBit(s.bits61, 0x80) then (s, false)
    else
      var c := Device.CheckScheduled(s.nextInterrupt, cycles);
      (s.(nextInterrupt := c.0), c.1)
  }

  /** Several codes pushed in order. */
  function PushAll(s: KbState, codes: seq<int>): (r: KbState)
    decreases |codes|
  {
    if |codes| == 0 then s else Push(PushAll(s, codes[..|codes| - 1]), codes[|codes| - 1])
  }

  /** `n` successive reads of port 0x60: the state left and the codes read. */
  function ReadCodes(s: KbState, n: nat): (r: (KbState, seq<int>))
    ensures |r.1| == n
    decreases n
  {
    if n == 0 then (s, [])
    else
      var first := Read(s, 0x60);
      var rest := ReadCodes(first.0, n - 1);
      (rest.0, [first.1] + rest.1)
  }

  /** Pushed codes land at the end of the FIFO, in order. */
  lemma {:induction false} PushAllAppends(s: KbState, codes: seq<int>)
    ensures PushAll(s, codes).buffer == s.buffer + codes
    ensures |PushAll(s, codes).nextInterrupt| == |s.nextInterrupt| + |codes|
    decreases |codes|
  {
    if |codes| > 0 {
      PushAllAppends(s, codes[..|codes| - 1]);
      assert codes[..|codes| - 1] + [codes[|codes| - 1]] == codes;
    }
  }

  /** Reading port 0x60 as many times as there are queued codes returns them
      in the order they were queued and empties the FIFO. */
  lemma {:induction false} ReadsInQueueOrder(s: KbState, n: nat)
    requires n <= |s.buffer|
    ensures ReadCodes(s, n).1 == s.buffer[..n]
    ensures ReadCodes(s, n).0.buffer == s.buffer[n..]
    decreases n
  {
    if n > 0 {
      var first := Read(s, 0x60);
      ReadsInQueueOrder(first.0, n - 1);
      assert first.0.buffer == s.buffer[1..];
      assert s.buffer[..n] == [s.buffer[0]] + s.buffer[1..][..n - 1];
      assert s.buffer[1..][n - 1..] == s.buffer[n..];
    }
  }

  /** First in, first out: codes pushed into an empty FIFO come back in the
      order they were pushed. */
  lemma FifoOrder(s: KbState, codes: seq<int>)
    requires s.buffer == []
    ensures ReadCodes(PushAll(s, codes), |codes|).1 == codes
    ensures ReadCodes(PushAll(s, codes), |codes|).0.buffer == []
  {
    PushAllAppends(s, codes);
    ReadsInQueueOrder(PushAll(s, codes), |codes|);
  }

  /** The BIOS reset handshake: clock low, then clock high with bit 7 clear,
      leaves exactly the reset reply in the FIFO with its interrupt behind
      those already pending, and the next read of port 0x60 returns it. */
  lemma ResetHandshake(s: KbState, low: int, high: int)
    requires !HasBit(low, 0x40) && HasBit(high, 0x40) && !HasBit(high, 0x80)
    ensures var r := Write(Write(s, 0x61, low), 0x61, high);
            r.buffer == [RESET_REPLY] && !r.clockLow &&
            r.nextInterrupt == Device.Scheduled(s.nextInterrupt, RESET_IRQ_DELAY) &&
            Read(r, 0x60).1 == RESET_REPLY && Read(r, 0x60).0.buffer == []
  {
  }

  /** Once the FIFO is empty a read repeats the last code until bit 7 of
      port 0x61 clears it (a write that does not complete a reset). */
  lemma AcknowledgeClearsRepeat(s: KbState, v: int)
    requires s.buffer == [] && HasBit(v, 0x80) && !(s.clockLow && HasBit(v, 0x40))
    ensures Read(s, 0x60) == (s, s.lastScanCode)
    ensures Read(Write(s, 0x61, v), 0x60).1 == 0
  {
  }

  /** The keyboard device. */
  class Keyboard {
    var st: KbState
    const pic: Pic.I8259

    constructor (pic: Pic.I8259)
      ensures st == INITIAL && this.pic == pic
    {
      st := INITIAL;
      this.pic := pic;
    }

    function GetIRQNumber(): (r: int)
      ensures r == IRQ
    { IRQ }

    /** The keyboard claims no ports of its own (the PPI forwards them). */
    function RegisterDevice(): (ports: seq<int>)
      ensures ports == []
    { [] }

    function Ticks(): (r: bool)
      ensures r
    { true }

    method PushKeyboardScancode(code: int)
      modifies this
      ensures st == Push(old(st), code)
    {
      st := st.(buffer := st.buffer + [code]);
      st := st.(nextInterrupt := st.nextInterrupt + [KEY_IRQ_DELAY]);
    }

    method IO_Write(port: int, value: int) returns (r: bool)
      modifies this
      ensures st == Write(old(st), port, value) && !r
    {
      if port == 0x61 {
        st := st.(bits61 := value);
        if !HasBit(value, 0x40) {
          st := st.(clockLow := true);
        } else if st.clockLow {
          st := st.(clockLow := false);
          st := st.(buffer := [RESET_REPLY]);
          st := st.(nextInterrupt := st.nextInterrupt + [RESET_IRQ_DELAY]);
        }
        if HasBit(value, 0x80) {
          st := st.(lastScanCode := 0);
        }
      }
      r := false;
    }

    method IO_Read(port: int) returns (v: int)
      modifies this
      ensures (st, v) == Read(old(st), port)
    {
      if port == 0x60 {
        v := st.lastScanCode;
        if |st.buffer| > 0 {
          v := st.buffer[0];
          st := st.(buffer := st.buffer[1..]);
          st := st.(lastScanCode := v);
        }
      } else if port == 0x61 {
        v := st.bits61;
      } else if port == 0x64 {
        v := 0x10;
      } else {
        v := 0;
      }
    }

    /** Requests IRQ 1 when TickSpec says so; the answer is always False. */
    method Tick(cycles: int, clock: int) returns (r: bool)
      requires pic.Valid()
      modifies this, pic
      ensures pic.Valid() && !r
      ensures st == TickSpec(old(st), cycles).0
      ensures pic.regs == (if TickSpec(old(st), cycles).1 then Pic.Request(old(pic.regs), IRQ) else old(pic.regs))
    {
      if !HasBit(st.bits61, 0x80) {
        var q := st.nextInterrupt;
        var fired := false;
        if |q| > 0 {
          q := q[0 := q[0] - cycles];
          assert q == [q[0]] + st.nextInterrupt[1..];
          if q[0] <= 0 {
            q := q[1..];
            fired := true;
          }
        }
        st := st.(nextInterrupt := q);
        if fired {
          pic.RequestInterruptPIC(IRQ);
        }
      }
      r := false;
    }
  }
}
