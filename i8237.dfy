/** The 8237 DMA controller (i8237.py): four channels, each with a 16-bit
    address and a 16-bit count register loaded and read one byte at a time,
    a 4-bit page register, a mask bit, a terminal-count (TC) bit and a mode
    byte; a command byte whose bit 2 disables the controller; and ONE
    low/high flip-flop that every byte access of every address and count
    register toggles.

    The flip-flop and the 16-bit buffers that share it are flattened into the
    register record: `ff` is the flip-flop, `address[i]` and `count[i]` the
    buffers' values.  Transfers read or write through the memory bus. */
module I8237 {
  import opened Bits
  import opened State8088
  import Bus

  const NO_CHANNELS: seq<bool> := [false, false, false, false]
  const ALL_CHANNELS: seq<bool> := [true, true, true, true]

  datatype DmaRegs = DmaRegs(
    ff: bool,
    address: seq<int>, count: seq<int>, page: seq<int>,
    mask: seq<bool>, tc: seq<bool>, mode: seq<int>,
    command: int, dmaEnabled: bool)
  {
    ghost predicate Valid() {
      |address| == 4 && |count| == 4 && |page| == 4 && |mask| == 4 && |tc| == 4 && |mode| == 4 &&
      (forall i :: 0 <= i < 4 ==> IsWord(address[i]) && IsWord(count[i]) && 0 <= page[i] < 16)
    }
  }

  /** The controller after construction: enabled, nothing masked. */
  function Initial(): (r: DmaRegs)
    ensures r.Valid() && !r.ff && r.dmaEnabled
    ensures forall i :: 0 <= i < 4 ==> !r.mask[i] && !r.tc[i] && r.address[i] == 0 && r.count[i] == 0
  {
    DmaRegs(false, [0, 0, 0, 0], [0, 0, 0, 0], [0, 0, 0, 0], NO_CHANNELS, NO_CHANNELS, [0, 0, 0, 0], 0, true)
  }

  /** b16buffer.Put: the flip-flop's old state picks the byte replaced. */
  function PutByte(v: int, high: bool, b: int): (r: int)
    requires IsWord(v) && IsByte(b)
    ensures IsWord(r)
    ensures high ==> r / 256 == b && r % 256 == v % 256
    ensures !high ==> r % 256 == b && r / 256 == v / 256
  {
    if high then v % 256 + b * 256 else (v / 256) * 256 + b
  }

  /** b16buffer.Get: the low or the high byte. */
  function GetByte(v: int, high: bool): (r: int)
    requires IsWord(v)
    ensures IsByte(r)
    ensures high ==> r == v / 256
    ensures !high ==> r == v % 256
  {
    if high then v / 256 else v % 256
  }

  /** IO_Read: address and count bytes (toggling the flip-flop), the status
      byte (bit i = channel i reached TC, and reading clears the TC bits), 0
      elsewhere. */
  function Read(r: DmaRegs, addr: int): (res: (DmaRegs, int))
    requires r.Valid()
    ensures res.0.Valid() && IsByte(res.1)
  {
    if addr in {0, 2, 4, 6} then (r.(ff := !r.ff), GetByte(r.address[addr / 2], r.ff))
    else if addr in {1, 3, 5, 7} then (r.(ff := !r.ff), GetByte(r.count[addr / 2], r.ff))
    else if addr == 8 then ReadStatus(r)
    else (r, 0)
  }

  /** The status byte and the cleared TC bits. */
  function ReadStatus(r: DmaRegs): (res: (DmaRegs, int))
    requires r.Valid()
    ensures res.0.Valid() && IsByte(res.1)
  {
    (r.(tc := NO_CHANNELS), FlagsWord(r.tc))
  }

  /** Setting bit |f| on top of the bits of f. */
  lemma {:induction false} FlagsWordSnoc(f: seq<bool>, b: bool)
    ensures FlagsWord(f + [b]) == FlagsWord(f) + (if b then Pow2(|f|) else 0)
    decreases |f|
  {
    if |f| > 0 {
      assert (f + [b])[1..] == f[1..] + [b];
      FlagsWordSnoc(f[1..], b);
    }
  }

  /** One more channel's TC bit in the status byte. */
  lemma StatusStep(t: seq<bool>, i: nat)
    requires i < |t|
    ensures FlagsWord(t[..i + 1]) == FlagsWord(t[..i]) + (if t[i] then Pow2(i) else 0)
  {
    assert t[..i + 1] == t[..i] + [t[i]];
    FlagsWordSnoc(t[..i], t[i]);
  }

  /** The page register a page port selects: 0x87, 0x83, 0x81, 0x82 for
      channels 0 to 3. */
  function PageChannel(addr: int): (ch: int)
    requires addr in {0x87, 0x83, 0x81, 0x82}
    ensures 0 <= ch < 4
  {
    if addr == 0x87 then 0 else if addr == 0x83 then 1 else if addr == 0x81 then 2 else 3
  }

  /** IO_Write (always answers False): the channel registers on ports 0-7,
      the control ports 8-0x0f, and the page registers. */
  function Write(r: DmaRegs, addr: int, value: int): (res: DmaRegs)
    requires r.Valid() && IsByte(value)
    ensures res.Valid()
  {
    if 0 <= addr < 8 then WriteChannel(r, addr, value)
    else if 8 <= addr < 0x10 then WriteControl(r, addr, value)
    else if addr in {0x87, 0x83, 0x81, 0x82} then r.(page := r.page[PageChannel(addr) := value % 16])
    else r
  }

  /** An address byte (even ports) or a count byte (odd ports, which also
      clears the channel's TC). */
  function WriteChannel(r: DmaRegs, addr: int, value: int): (res: DmaRegs)
    requires r.Valid() && IsByte(value) && 0 <= addr < 8
    ensures res.Valid()
  {
    if addr in {0, 2, 4, 6} then
      r.(ff := !r.ff, address := r.address[addr / 2 := PutByte(r.address[addr / 2], r.ff, value)])
    else
      r.(ff := !r.ff, count := r.count[addr / 2 := PutByte(r.count[addr / 2], r.ff, value)],
         tc := r.tc[addr / 2 := false])
  }

  /** Command, single mask, mode, flip-flop reset, master reset, clear
      masks, all masks. */
  function WriteControl(r: DmaRegs, addr: int, value: int): (res: DmaRegs)
    requires r.Valid() && IsByte(value) && 8 <= addr < 0x10
    ensures res.Valid()
  {
    if addr == 8 then r.(command := value, dmaEnabled := !HasBit(value, 4))
    else if addr == 0x0a then r.(mask := r.mask[value % 4 := HasBit(value, 4)])
    else if addr == 0x0b then r.(mode := r.mode[value % 4 := value], tc := NO_CHANNELS)
    else if addr == 0x0c then r.(ff := false)
    else if addr == 0x0d then r.(mask := ALL_CHANNELS, ff := false, tc := NO_CHANNELS)
    else if addr == 0x0e then r.(mask := NO_CHANNELS)
    else if addr == 0x0f then r.(mask := WordFlags(value, 4))
    else r
  }

  /** A channel transfers only while the controller is enabled and the
      channel is neither masked nor at terminal count. */
  predicate Ready(r: DmaRegs, ch: int)
    requires r.Valid() && 0 <= ch < 4
  {
    r.dmaEnabled && !r.mask[ch] && !r.tc[ch]
  }

  /** The 20-bit bus address of a channel: `(page << 16) | address`. */
  function FullAddress(r: DmaRegs, ch: int): (a: int)
    requires r.Valid() && 0 <= ch < 4
    ensures 0 <= a < 0x100000
    ensures a % 0x10000 == r.address[ch] && a / 0x10000 == r.page[ch]
  {
    r.page[ch] * 0x10000 + r.address[ch]
  }

  /** After one transfer: the address moves up by one (mod 0x10000) and the
      count down by one; TC is reached when the count passes below 0. */
  function Advance(r: DmaRegs, ch: int): (res: DmaRegs)
    requires r.Valid() && 0 <= ch < 4
    ensures res.Valid()
    ensures res.tc[ch] <==> r.tc[ch] || r.count[ch] == 0
  {
    var c := r.count[ch] - 1;
    r.(address := r.address[ch := (r.address[ch] + 1) % 0x10000],
       count := r.count[ch := c % 0x10000],
       tc := if c == -1 then r.tc[ch := true] else r.tc)
  }

  /** TickChannel0: the RAM-refresh channel 0 moves n steps at once. */
  function Refreshed(r: DmaRegs, n: int): (res: DmaRegs)
    requires r.Valid()
    ensures res.Valid()
  {
    var c := r.count[0] - n;
    r.(address := r.address[0 := (r.address[0] + n) % 0x10000],
       count := r.count[0 := c % 0x10000],
       tc := if c < 0 then r.tc[0 := true] else r.tc)
  }

  /** Loading a 16-bit register low byte then high byte from a cleared
      flip-flop, then reading it back twice, gives the two bytes back in the
      same order, and leaves the flip-flop cleared. */
  lemma LoadThenRead(r: DmaRegs, port: int, lo: int, hi: int)
    requires r.Valid() && !r.ff && 0 <= port < 8 && IsByte(lo) && IsByte(hi)
    ensures var w := Write(Write(r, port, lo), port, hi);
            var a := Read(w, port);
            var b := Read(a.0, port);
            (if port % 2 == 0 then w.address[port / 2] else w.count[port / 2]) == lo + 256 * hi &&
            !w.ff && a.1 == lo && b.1 == hi && !b.0.ff
  {
  }

  /** The flip-flop is shared: a byte written to channel 0's address and then
      one written to channel 1's count lands in the HIGH byte of the count. */
  lemma SharedFlipFlop(r: DmaRegs, x: int, y: int)
    requires r.Valid() && !r.ff && IsByte(x) && IsByte(y)
    ensures var w := Write(Write(r, 0, x), 3, y);
            w.address[0] % 256 == x && w.count[1] / 256 == y && w.count[1] % 256 == r.count[1] % 256
  {
  }

  /** A status read returns the TC bits, bit i for channel i, and clears them. */
  lemma StatusRead(r: DmaRegs)
    requires r.Valid()
    ensures var s := Read(r, 8);
            WordFlags(s.1, 4) == r.tc && s.0 == r.(tc := NO_CHANNELS)
  {
    WordFlagsRoundTrip(r.tc);
  }

  /** The page ports store the low nibble in channels 0, 1, 2, 3 for ports
      0x87, 0x83, 0x81, 0x82, and a master reset stops every channel. */
  lemma PagesAndReset(r: DmaRegs, value: int)
    requires r.Valid() && IsByte(value)
    ensures Write(r, 0x87, value).page == r.page[0 := value % 16]
    ensures Write(r, 0x83, value).page == r.page[1 := value % 16]
    ensures Write(r, 0x81, value).page == r.page[2 := value % 16]
    ensures Write(r, 0x82, value).page == r.page[3 := value % 16]
    ensures forall ch :: 0 <= ch < 4 ==> !Ready(Write(r, 0x0d, value), ch) && !Write(r, 0x0d, value).ff
  {
    assert Write(r, 0x0d, value) == r.(mask := ALL_CHANNELS, ff := false, tc := NO_CHANNELS);
  }

  /** n transfers in a row on one channel. */
  function AdvanceN(r: DmaRegs, ch: int, n: nat): (res: DmaRegs)
    requires r.Valid() && 0 <= ch < 4
    ensures res.Valid()
    decreases n
  {
    if n == 0 then r else Advance(AdvanceN(r, ch, n - 1), ch)
  }

  /** A ready channel loaded with count c stays ready through c transfers at
      consecutive addresses, its count going down by one each time. */
  lemma {:induction false} TransfersWhileCounting(r: DmaRegs, ch: int, k: nat)
    requires r.Valid() && 0 <= ch < 4 && Ready(r, ch) && k <= r.count[ch]
    ensures var s := AdvanceN(r, ch, k);
            Ready(s, ch) && s.count[ch] == r.count[ch] - k &&
            s.address[ch] == (r.address[ch] + k) % 0x10000
    decreases k
  {
    if k > 0 {
      var j := k - 1;
      TransfersWhileCounting(r, ch, j);
      TransferStep(AdvanceN(r, ch, j), ch, r.address[ch], r.count[ch], j);
    }
  }

  /** The j+1-th transfer of a channel that has made j of its c0 + 1. */
  lemma TransferStep(s: DmaRegs, ch: int, a0: int, c0: int, j: nat)
    requires s.Valid() && 0 <= ch < 4 && Ready(s, ch) && j < c0
    requires s.count[ch] == c0 - j && s.address[ch] == (a0 + j) % 0x10000
    ensures var t := Advance(s, ch);
            Ready(t, ch) && t.count[ch] == c0 - (j + 1) && t.address[ch] == (a0 + (j + 1)) % 0x10000
  {
    assert (s.address[ch] + 1) % 0x10000 == (a0 + (j + 1)) % 0x10000;
  }

  /** ... and the (c + 1)-th transfer sets TC: exactly c + 1 transfers. */
  lemma TcAfterCountPlusOne(r: DmaRegs, ch: int)
    requires r.Valid() && 0 <= ch < 4 && Ready(r, ch)
    ensures Ready(AdvanceN(r, ch, r.count[ch]), ch)
    ensures !Ready(AdvanceN(r, ch, r.count[ch] + 1), ch)
  {
    TransfersWhileCounting(r, ch, r.count[ch]);
  }

  /** Stepping a 16-bit register value by one commutes with wrapping it. */
  lemma WrapStep(x: int)
    ensures ((x % 0x10000) + 1) % 0x10000 == (x + 1) % 0x10000
    ensures ((x % 0x10000) - 1) % 0x10000 == (x - 1) % 0x10000
  {
    var q := x / 0x10000;
    assert x == q * 0x10000 + x % 0x10000;
    assert (x % 0x10000) + 1 == (x + 1) - q * 0x10000;
    assert (x % 0x10000) - 1 == (x - 1) - q * 0x10000;
  }

  /** One more refresh cycle is one more transfer on channel 0. */
  lemma RefreshStep(r: DmaRegs, n: nat)
    requires r.Valid() && n > 0
    ensures Refreshed(r, n) == Advance(Refreshed(r, n - 1), 0)
  {
    var p := Refreshed(r, n - 1);
    var q := Refreshed(r, n);
    var a := Advance(p, 0);
    WrapStep(r.address[0] + n - 1);
    WrapStep(r.count[0] - n + 1);
    assert r.count[0] == n - 1 ==> p.count[0] == 0;
    assert p.count[0] == 0 ==> r.count[0] - n + 1 <= 0;
    assert a.address == q.address;
    assert a.count == q.count;
    assert forall i | 0 <= i < 4 :: a.tc[i] == q.tc[i];
    assert a.tc == q.tc;
  }

  /** A refresh of n cycles is n single transfers on channel 0. */
  lemma {:induction false} RefreshedIsTransfers(r: DmaRegs, n: nat)
    requires r.Valid()
    ensures Refreshed(r, n) == AdvanceN(r, 0, n)
    decreases n
  {
    if n > 0 {
      RefreshedIsTransfers(r, n - 1);
      RefreshStep(r, n);
    }
  }

  /** What a refresh of n cycles does, as n transfers on channel 0: the
      address moves up by n and the count down by n, both modulo 0x10000,
      TC is raised exactly when the count runs out (it was below n), and
      channels 1-3 and the control state are untouched. */
  lemma RefreshedMeaning(r: DmaRegs, n: nat)
    requires r.Valid()
    ensures var s := AdvanceN(r, 0, n);
            && s.address[0] == (r.address[0] + n) % 0x10000
            && s.count[0] == (r.count[0] - n) % 0x10000
            && (s.tc[0] <==> r.tc[0] || r.count[0] < n)
            && (forall i :: 1 <= i < 4 ==> s.address[i] == r.address[i] && s.count[i] == r.count[i] && s.tc[i] == r.tc[i])
            && s.page == r.page && s.mask == r.mask && s.mode == r.mode && s.ff == r.ff
            && s.command == r.command && s.dmaEnabled == r.dmaEnabled
  {
    RefreshedIsTransfers(r, n);
  }

  class I8237 {
    var regs: DmaRegs
    const bus: Bus.Bus

    ghost predicate Valid()
      reads this, bus, bus.ram
    {
      regs.Valid() && bus.Valid()
    }

    constructor (b: Bus.Bus)
      ensures regs == Initial() && bus == b
    {
      regs := Initial();
      bus := b;
    }

    /** The controller has no IRQ line, no memory range and no Tick. */
    function GetIRQNumber(): (r: int)
      ensures r < 0
    { -1 }

    function GetAddressList(): (r: seq<(int, int)>)
      ensures r == []
    { [] }

    function Ticks(): (r: bool)
      ensures !r
    { false }

    function ReadByte(offset: int): (r: int)
      ensures r == 0xee
    { 0xee }

    /** Ports 0x00-0x0f and the four page ports. */
    function RegisterDevice(): (ports: seq<int>)
      ensures forall p :: p in ports <==> (0 <= p < 0x10 || p in {0x81, 0x82, 0x83, 0x87})
    {
      [0x00, 0x01, 0x02, 0x03, 0x04, 0x05, 0x06, 0x07,
       0x08, 0x09, 0x0a, 0x0b, 0x0c, 0x0d, 0x0e, 0x0f,
       0x81, 0x82, 0x83, 0x87]
    }

    /** Whether a channel has reached terminal count. */
    function IsChannelTC(channel: int): (r: bool)
      reads this
      requires regs.Valid() && 0 <= channel < 4
      ensures r <==> regs.tc[channel]
      ensures r ==> !Ready(regs, channel)
    { regs.tc[channel] }

    /** FlipFlop.get_state: the old state, and the flip-flop toggles. */
    method GetFlipFlop() returns (high: bool)
      requires regs.Valid()
      modifies this
      ensures high == old(regs.ff) && regs == old(regs).(ff := !old(regs.ff))
    {
      high := regs.ff;
      regs := regs.(ff := !regs.ff);
    }

    method IO_Read(addr: int) returns (v: int)
      requires regs.Valid()
      modifies this
      ensures regs.Valid() && (regs, v) == Read(old(regs), addr)
    {
      v := 0;
      if addr in {0, 2, 4, 6} {
        var high := GetFlipFlop();
        v := GetByte(regs.address[addr / 2], high);
      } else if addr in {1, 3, 5, 7} {
        var high := GetFlipFlop();
        v := GetByte(regs.count[addr / 2], high);
      } else if addr == 8 {
        v := ReadStatusRegister();
      }
    }

    /** Port 8: collects and clears the TC bits, channel by channel. */
    method ReadStatusRegister() returns (v: int)
      requires regs.Valid()
      modifies this
      ensures regs.Valid() && (regs, v) == ReadStatus(old(regs))
    {
      var t := regs.tc;
      var tc := t;
      v := 0;
      var i := 0;
      while i < 4
        invariant 0 <= i <= 4 && |tc| == 4
        invariant regs == old(regs)
        invariant forall j :: 0 <= j < i ==> !tc[j]
        invariant forall j :: i <= j < 4 ==> tc[j] == t[j]
        invariant v == FlagsWord(t[..i])
      {
        StatusStep(t, i);
        if tc[i] {
          tc := tc[i := false];
          v := v + Pow2(i);
        }
        i := i + 1;
      }
      assert t[..4] == t;
      assert tc == NO_CHANNELS;
      regs := regs.(tc := tc);
    }

    method IO_Write(addr: int, value: int) returns (r: bool)
      requires regs.Valid() && IsByte(value)
      modifies this
      ensures regs.Valid() && regs == Write(old(regs), addr, value) && !r
    {
      if 0 <= addr < 8 {
        WriteChannelRegister(addr, value);
      } else if 8 <= addr < 0x10 {
        WriteControlRegister(addr, value);
      } else if addr in {0x87, 0x83, 0x81, 0x82} {
        regs := regs.(page := regs.page[PageChannel(addr) := value % 16]);
      }
      r := false;
    }

    method WriteChannelRegister(addr: int, value: int)
      requires regs.Valid() && IsByte(value) && 0 <= addr < 8
      modifies this
      ensures regs.Valid() && regs == WriteChannel(old(regs), addr, value)
    {
      if addr in {0, 2, 4, 6} {
        var high := GetFlipFlop();
        regs := regs.(address := regs.address[addr / 2 := PutByte(regs.address[addr / 2], high, value)]);
      } else {
        var high := GetFlipFlop();
        regs := regs.(count := regs.count[addr / 2 := PutByte(regs.count[addr / 2], high, value)]);
        regs := regs.(tc := regs.tc[addr / 2 := false]);
      }
    }

    method WriteControlRegister(addr: int, value: int)
      requires regs.Valid() && IsByte(value) && 8 <= addr < 0x10
      modifies this
      ensures regs.Valid() && regs == WriteControl(old(regs), addr, value)
    {
      if addr == 8 {
        regs := regs.(command := value, dmaEnabled := !HasBit(value, 4));
      } else if addr == 0x0a {
        regs := regs.(mask := regs.mask[value % 4 := HasBit(value, 4)]);
      } else if addr == 0x0b {
        regs := regs.(mode := regs.mode[value % 4 := value]);
        ClearTc();
      } else if addr == 0x0c {
        regs := regs.(ff := false);
      } else if addr == 0x0d {
        ResetMasks(true);
        regs := regs.(ff := false);
        ClearTc();
      } else if addr == 0x0e {
        ResetMasks(false);
      } else if addr == 0x0f {
        SetAllMasks(value);
      }
    }

    /** Port 0x0f: the low four bits of the value are the four masks. */
    method SetAllMasks(value: int)
      requires regs.Valid() && IsByte(value)
      modifies this
      ensures regs == old(regs).(mask := WordFlags(value, 4))
    {
      var mask := regs.mask;
      var i := 0;
      while i < 4
        invariant 0 <= i <= 4 && |mask| == 4
        invariant mask == WordFlags(value, 4)[..i] + old(regs).mask[i..]
      {
        mask := mask[i := BitSet(value, i)];
        i := i + 1;
      }
      regs := regs.(mask := mask);
    }

    method ClearTc()
      requires regs.Valid()
      modifies this
      ensures regs == old(regs).(tc := NO_CHANNELS)
    {
      var i := 0;
      while i < 4
        invariant 0 <= i <= 4 && regs.Valid()
        invariant regs == old(regs).(tc := NO_CHANNELS[..i] + old(regs).tc[i..])
      {
        regs := regs.(tc := regs.tc[i := false]);
        i := i + 1;
      }
    }

    /** reset_masks: every channel's mask becomes `state`. */
    method ResetMasks(state: bool)
      requires regs.Valid()
      modifies this
      ensures regs == old(regs).(mask := if state then ALL_CHANNELS else NO_CHANNELS)
    {
      var i := 0;
      while i < 4
        invariant 0 <= i <= 4 && regs.Valid()
        invariant regs == old(regs).(mask := regs.mask)
        invariant forall j :: 0 <= j < 4 ==> regs.mask[j] == if j < i then state else old(regs).mask[j]
      {
        regs := regs.(mask := regs.mask[i := state]);
        i := i + 1;
      }
      assert regs.mask == if state then ALL_CHANNELS else NO_CHANNELS;
    }

    method TickChannel0(n: int)
      requires regs.Valid()
      modifies this
      ensures regs == Refreshed(old(regs), n)
    {
      regs := regs.(address := regs.address[0 := (regs.address[0] + n) % 0x10000]);
      var newCount := regs.count[0] - n;
      if newCount < 0 {
        regs := regs.(tc := regs.tc[0 := true]);
      }
      regs := regs.(count := regs.count[0 := newCount % 0x10000]);
    }

    /** One byte from memory for a device: -1 when the channel cannot
        transfer, otherwise the byte the bus reads at the channel's address. */
    method ReceiveFromChannel(channel: int, devRead: (nat, int) -> int) returns (rc: int)
      requires Valid() && 0 <= channel < 4
      modifies this
      ensures Valid()
      ensures !Ready(old(regs), channel) ==> rc == -1 && regs == old(regs)
      ensures Ready(old(regs), channel) ==>
                regs == Advance(old(regs), channel) &&
                rc == Bus.ReadSpec(bus.cache, bus.roms, bus.ram.m[..], devRead, FullAddress(old(regs), channel)).0
    {
      if !regs.dmaEnabled || regs.mask[channel] || regs.tc[channel] {
        return -1;
      }
      var full := FullAddress(regs, channel);
      var v, ws := bus.ReadByte(full, devRead);
      rc := v;
      AdvanceChannel(channel);
    }

    /** The register side of one transfer: the address up by one, the count
        down by one, TC once the count passes below 0. */
    method AdvanceChannel(channel: int)
      requires regs.Valid() && 0 <= channel < 4
      modifies this`regs
      ensures regs == Advance(old(regs), channel)
    {
      regs := regs.(address := regs.address[channel := (regs.address[channel] + 1) % 0x10000]);
      var c := regs.count[channel] - 1;
      if c == -1 {
        regs := regs.(tc := regs.tc[channel := true]);
      }
      regs := regs.(count := regs.count[channel := c % 0x10000]);
    }

    /** One byte from a device to memory: False when the channel cannot
        transfer, otherwise the bus takes the byte at the channel's address. */
    method SendToChannel(channel: int, value: int) returns (ok: bool)
      requires Valid() && 0 <= channel < 4 && IsByte(value)
      modifies this, bus, bus.ram.m
      ensures Valid()
      ensures !Ready(old(regs), channel) ==>
                !ok && regs == old(regs) && bus.ram.m[..] == old(bus.ram.m[..]) && bus.deviceWrites == old(bus.deviceWrites)
      ensures Ready(old(regs), channel) ==>
                var w := Bus.WriteSpec(bus.cache, old(bus.ram.m[..]), old(bus.deviceWrites), FullAddress(old(regs), channel), value);
                ok && regs == Advance(old(regs), channel) && bus.ram.m[..] == w.0 && bus.deviceWrites == w.1
    {
      if !regs.dmaEnabled || regs.mask[channel] || regs.tc[channel] {
        return false;
      }
      var full := FullAddress(regs, channel);
      var ws := bus.WriteByte(full, value);
      AdvanceChannel(channel);
      ok := true;
    }
  }
}
