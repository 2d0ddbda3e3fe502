/** The 8255 programmable peripheral interface (i8255.py): ports 0x60..0x63.
    Port 0x62 shows one nibble of the configuration switches, chosen by
    bit 3 of the last write to port 0x61; port 0x63 reads back the mode
    0x99; every other access goes on to the keyboard. */
module Ppi {
  import opened Bits
  import Keyboard

  /** The XT switch block: two floppy drives, MDA, 256 KiB, IPL bit. */
  const SW1: int := 0x30

  /** The port 0x63 mode byte. */
  const MODE: int := 0x99

  /** The interface's own state: which switch nibble port 0x62 shows, and
      whether port 0x60 shows the switches instead of the keyboard (only a
      PC sets that; the XT write to port 0x61 always clears it). */
  datatype PpiState = PpiState(dipswitchesHigh: bool, useSW1: bool)

  const INITIAL: PpiState := PpiState(false, false)

  /** IO_Read: the answer, and the keyboard state after any forwarded read. */
  function Read(p: PpiState, kb: Keyboard.KbState, port: int): (r: (Keyboard.KbState, int))
    ensures p.useSW1 && port == 0x60 ==> r == (kb, SW1)
    ensures port == 0x62 ==> r == (kb, if p.dipswitchesHigh then SW1 / 16 else SW1 % 16)
    ensures port == 0x63 ==> r == (kb, MODE)
    ensures !(p.useSW1 && port == 0x60) && port != 0x62 && port != 0x63 ==> r == Keyboard.Read(kb, port)
  {
    if p.useSW1 && port == 0x60 then (kb, SW1)
    else if port == 0x62 then (kb, if p.dipswitchesHigh then SW1 / 16 else SW1 % 16)
    else if port == 0x63 then (kb, MODE)
    else Keyboard.Read(kb, port)
  }

  /** IO_Write: port 0x61 selects the switch nibble from bit 3 and falls
      through to the keyboard; port 0x63 (the control port) is dropped;
      other ports go to the keyboard. */
  function Write(p: PpiState, kb: Keyboard.KbState, port: int, value: int): (r: (PpiState, Keyboard.KbState, bool))
    ensures port == 0x61 ==> r.0 == PpiState(HasBit(value, 8), false)
    ensures port != 0x61 ==> r.0 == p
    ensures port == 0x63 ==> r.1 == kb && !r.2
    ensures port != 0x63 ==> r.1 == Keyboard.Write(kb, port, value) && !r.2
  {
    if port == 0x61 then (PpiState(HasBit(value, 8), false), Keyboard.Write(kb, port, value), false)
    else if port == 0x63 then (p, kb, false)
    else (p, Keyboard.Write(kb, port, value), false)
  }

  /** Reading port 0x62 once with each setting of bit 3 gives both nibbles of
      the switch block, which put together are the whole block. */
  lemma SwitchNibbles(p: PpiState, kb: Keyboard.KbState, v0: int, v1: int)
    requires !HasBit(v0, 8) && HasBit(v1, 8)
    ensures var lo := Read(Write(p, kb, 0x61, v0).0, kb, 0x62).1;
            var hi := Read(Write(p, kb, 0x61, v1).0, kb, 0x62).1;
            hi * 16 + lo == SW1 && lo < 16 && hi < 16
  {
  }

  /** A write to port 0x61 reaches the keyboard too: the reset handshake
      and the acknowledge bit work through the interface. */
  lemma KeyboardSeesPortB(p: PpiState, kb: Keyboard.KbState, value: int)
    ensures Write(p, kb, 0x61, value).1.bits61 == value
  {
  }

  /** The interface object, with the keyboard it forwards to. */
  class I8255 {
    var st: PpiState
    const kb: Keyboard.Keyboard

    constructor (kb: Keyboard.Keyboard)
      ensures st == INITIAL && this.kb == kb
    {
      st := INITIAL;
      this.kb := kb;
    }

    function GetIRQNumber(): (r: int)
      ensures r < 0
    { -1 }

    function RegisterDevice(): (ports: seq<int>)
      ensures forall q :: q in ports <==> 0x60 <= q <= 0x63
    { [0x60, 0x61, 0x62, 0x63] }

    /** The interface does not want Tick. */
    function Ticks(): (r: bool)
      ensures !r
    { false }

    method IO_Read(port: int) returns (v: int)
      modifies kb
      ensures (kb.st, v) == Read(st, old(kb.st), port)
    {
      if st.useSW1 && port == 0x60 {
        return SW1;
      }
      if port == 0x62 {
        if st.dipswitchesHigh {
          return SW1 / 16;
        }
        return SW1 % 16;
      }
      if port == 0x63 {
        return MODE;
      }
      v := kb.IO_Read(port);
    }

    method IO_Write(port: int, value: int) returns (r: bool)
      modifies this, kb
      ensures (st, kb.st, r) == Write(old(st), old(kb.st), port, value)
    {
      if port == 0x61 {
        st := PpiState(HasBit(value, 8), false);
      } else if port == 0x63 {
        return false;
      }
      r := kb.IO_Write(port, value);
    }
  }
}
