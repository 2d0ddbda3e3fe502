/** The 8253 programmable interval timer (i8253.py): three counters
    programmed through the mode port 0x43 and loaded and read one byte at a
    time through ports 0x40..0x42, counting down one step every four
    processor cycles; counter 0 raises IRQ 0 when it wraps.

    Each counter is a Timer record; the device holds the three of them and
    the cycles not yet turned into counter steps.  The random choice with
    which a low-byte read may flip bit 0 is a parameter (`coin`). */
module I8253 {
  import opened Bits
  import Pic

  /** The timer interrupts on IRQ 0. */
  const IRQ: int := 0

  /** Processor cycles per counter step. */
  const CYCLES_PER_STEP: int := 4

  /** One counter.  `latchType` is the access mode (1 low byte, 2 high byte,
      3 low then high), `latchN` the number of bytes that access takes and
      `latchNCur` the bytes still to come in the current load or read. */
  datatype Timer = Timer(cur: int, prv: int, ini: int, mode: int,
                         latchType: int, latchN: int, latchNCur: int,
                         running: bool, pending: bool, bcd: bool)
  {
    ghost predicate Valid() {
      IsWord(ini) && 0 <= mode < 8 && 0 <= latchType < 4 && 0 <= latchN <= 2 && IsWord(latchNCur)
    }
  }

  const IDLE: Timer := Timer(0, 0, 0, 0, 0, 0, 0, false, false, false)

  /** The fields of a mode byte written to port 0x43. */
  function CounterField(v: int): int { v / 64 }
  function AccessField(v: int): int { (v / 16) % 4 }
  function ModeField(v: int): int { (v / 2) % 8 }

  /** Programming one counter: access mode 0 (the counter-latch command) is
      ignored; any other stops the counter, clears its initial count and
      expects one byte (low or high only) or two (low then high). */
  function Programmed(t: Timer, v: int): (r: Timer)
    requires t.Valid() && IsByte(v)
    ensures r.Valid()
    ensures AccessField(v) == 0 ==> r == t
    ensures AccessField(v) != 0 ==>
              !r.running && r.ini == 0 && r.latchType == AccessField(v) && r.mode == ModeField(v) &&
              r.bcd == (v % 2 == 1) && r.latchNCur == r.latchN &&
              r.latchN == (if AccessField(v) == 3 then 2 else 1) &&
              r.cur == t.cur && r.prv == t.prv && r.pending == t.pending
  {
    var latch := AccessField(v);
    if latch == 0 then t
    else
      var n := if latch == 3 then 2 else 1;
      t.(mode := ModeField(v), latchType := latch, running := false, bcd := v % 2 == 1,
         ini := 0, latchN := n, latchNCur := n)
  }

  /** The outcome of a mode byte: the new counters, or the IndexError the
      program raises when it indexes its three-counter list with 3. */
  datatype CommandOutcome = Done(timers: seq<Timer>) | IndexError

  /** Command as written: the counter field indexes the list directly. */
  function CommandAsWritten(ts: seq<Timer>, v: int): (r: CommandOutcome)
    requires |ts| == 3 && (forall i :: 0 <= i < 3 ==> ts[i].Valid()) && IsByte(v)
    ensures AccessField(v) == 0 ==> r == Done(ts)
    ensures AccessField(v) != 0 && CounterField(v) == 3 ==> r == IndexError
  {
    var nr := CounterField(v);
    if AccessField(v) == 0 then Done(ts)
    else if nr < 3 then Done(ts[nr := Programmed(ts[nr], v)])
    else IndexError
  }

  /** A mode byte selecting counter 3 with a non-zero access mode stops the
      program. */
  lemma CounterThreeRaises(ts: seq<Timer>)
    requires |ts| == 3 && forall i :: 0 <= i < 3 ==> ts[i].Valid()
    ensures CommandAsWritten(ts, 0xF0) == IndexError
    ensures CommandAsWritten(ts, 0xD6) == IndexError
  {
  }

  /** Command as intended: an 8253 has no counter 3, so such a byte is
      ignored; otherwise only the selected counter changes. */
  function Command(ts: seq<Timer>, v: int): (r: seq<Timer>)
    requires |ts| == 3 && (forall i :: 0 <= i < 3 ==> ts[i].Valid()) && IsByte(v)
    ensures |r| == 3 && forall i :: 0 <= i < 3 ==> r[i].Valid()
    ensures CounterField(v) == 3 ==> r == ts
    ensures CounterField(v) < 3 ==>
              r[CounterField(v)] == Programmed(ts[CounterField(v)], v) &&
              forall i :: 0 <= i < 3 && i != CounterField(v) ==> r[i] == ts[i]
    ensures CommandAsWritten(ts, v).Done? ==> r == CommandAsWritten(ts, v).timers
  {
    var nr := CounterField(v);
    if nr < 3 then ts[nr := Programmed(ts[nr], v)] else ts
  }

  /** `ini & 0xff00 | v` and `ini & 0x00ff | (v << 8)` on a 16-bit initial count. */
  function WithLow(ini: int, v: int): (r: int)
    requires IsWord(ini) && IsByte(v)
    ensures IsWord(r) && r % 256 == v && r / 256 == ini / 256
  { (ini / 256) * 256 + v }

  function WithHigh(ini: int, v: int): (r: int)
    requires IsWord(ini) && IsByte(v)
    ensures IsWord(r) && r % 256 == ini % 256 && r / 256 == v
  { ini % 256 + v * 256 }

  /** LatchCounter: one byte of the initial count.  While bytes are expected
      the access mode picks the half (low then high for mode 3); after the
      last one the counter restarts from the new initial count. */
  function Load(t: Timer, v: int): (r: Timer)
    requires t.Valid() && IsByte(v)
    ensures r.Valid()
    ensures t.latchNCur == 0 ==> r == t
    ensures t.latchNCur == 1 ==> r.running && !r.pending && r.cur == r.ini && r.latchNCur == t.latchN
    ensures t.latchNCur > 1 ==> r.latchNCur == t.latchNCur - 1 && r.running == t.running && r.cur == t.cur
  {
    if t.latchNCur == 0 then t
    else
      var ini :=
        if t.latchType == 1 then WithLow(t.ini, v)
        else if t.latchType == 2 then WithHigh(t.ini, v)
        else if t.latchType == 3 then (if t.latchNCur == 2 then WithLow(t.ini, v) else WithHigh(t.ini, v))
        else t.ini;
      var n := t.latchNCur - 1;
      if n == 0 then t.(ini := ini, latchNCur := t.latchN, cur := ini, running := true, pending := false)
      else t.(ini := ini, latchNCur := n)
  }

  /** The low byte of a counter, Python's `cur & 0xff`, with bit 0 flipped
      when `flip` holds (`cur ^ 1`). */
  function LowByte(cur: int, flip: bool): (r: int)
    ensures IsByte(r) && r / 2 == (cur % 256) / 2
    ensures !flip ==> r == cur % 256
    ensures flip ==> r % 2 != (cur % 256) % 2
  {
    var b := cur % 256;
    if !flip then b else if b % 2 == 0 then b + 1 else b - 1
  }

  /** AddNoiseToLSB: remembers the current count as the previous one; when
      the count moved by two or more since the last such read, `coin` decides
      whether bit 0 of the answer is flipped. */
  function NoisyLow(t: Timer, coin: bool): (r: (Timer, int))
    ensures r.0 == t.(prv := t.cur) && IsByte(r.1)
    ensures r.1 / 2 == (t.cur % 256) / 2
    ensures Abs(t.cur - t.prv) < 2 || !coin ==> r.1 == t.cur % 256
  {
    (t.(prv := t.cur), LowByte(t.cur, Abs(t.cur - t.prv) >= 2 && coin))
  }

  /** GetCounter: the low byte (through AddNoiseToLSB), the high byte, or 0
      for a counter never programmed; then one byte fewer is expected, the
      count of expected bytes starting over once it reaches zero. */
  function ReadCounter(t: Timer, coin: bool): (r: (Timer, int))
    requires t.Valid()
    ensures r.0.Valid() && IsByte(r.1)
    ensures r.0.cur == t.cur && r.0.ini == t.ini && r.0.running == t.running
    ensures r.0.latchNCur == (if t.latchNCur == 1 then t.latchN else (t.latchNCur - 1) % 0x10000)
  {
    var lowRead := t.latchType == 1 || (t.latchType == 3 && t.latchNCur == 2);
    var highRead := t.latchType == 2 || (t.latchType == 3 && t.latchNCur != 2);
    var (t1, rc) :=
      if lowRead then NoisyLow(t, coin)
      else if highRead then (t, (t.cur / 256) % 256)
      else (t, 0);
    var n := (t1.latchNCur - 1) % 0x10000;
    (if n == 0 then t1.(latchNCur := t1.latchN) else t1.(latchNCur := n), rc)
  }

  /** Loading a 16-bit count in access mode 3 takes two bytes, low then
      high; the counter then runs from that count and the next two reads
      (without noise) give it back, low byte first. */
  lemma WordLoadAndReadBack(t: Timer, v: int, lo: int, hi: int)
    requires t.Valid() && IsByte(v) && AccessField(v) == 3 && IsByte(lo) && IsByte(hi)
    ensures var p := Programmed(t, v);
            var l := Load(Load(p, lo), hi);
            var r1 := ReadCounter(l, false);
            var r2 := ReadCounter(r1.0, false);
            l.running && l.cur == l.ini == lo + 256 * hi && l.latchNCur == 2 &&
            r1.1 == lo && r2.1 == hi && r2.0.latchNCur == 2
  {
  }

  /** A one-byte load in access mode 1 sets the low byte of a zero count and
      starts the counter. */
  lemma ByteLoad(t: Timer, v: int, lo: int)
    requires t.Valid() && IsByte(v) && AccessField(v) == 1 && IsByte(lo)
    ensures var l := Load(Programmed(t, v), lo);
            l.running && !l.pending && l.ini == lo && l.cur == lo
  {
  }

  /** The count a reload starts from and the number of wraps a step count
      causes: a counter below zero has wrapped once for every full 0x10000
      it is below zero. */
  function Wraps(cur: int): (w: int)
    ensures w >= 0 && (w > 0 <==> cur <= -0x10000)
  {
    if cur < 0 then (-cur) / 0x10000 else 0
  }

  /** One counter during Tick, `n` steps: a running counter counts down;
      once it has wrapped, modes other than 1 reload from the initial count
      (0 standing for 0x10000) less the overshoot, mode 1 keeps the low 16
      bits, and counter 0 becomes pending. */
  function Step(t: Timer, n: int, isZero: bool): (r: Timer)
    requires t.Valid()
    ensures r.Valid() && r.ini == t.ini && r.mode == t.mode && r.running == t.running
  {
    if !t.running then t
    else
      var c := t.cur - n;
      if Wraps(c) == 0 then t.(cur := c)
      else
        var c' := if t.mode != 1 then t.ini - ((-c) % (if t.ini == 0 then 0x10000 else t.ini)) else c % 0x10000;
        t.(cur := c', pending := t.pending || isZero)
  }

  /** Whether counter 0's step raises the interrupt. */
  predicate Fires(t: Timer, n: int) {
    t.running && Wraps(t.cur - n) > 0
  }

  /** Outside mode 1 a running counter stays within (-0x10000, ini]: for the
      initial count 0 (the usual 18.2 Hz setting) that is the 0x10000 values
      below and including zero, and otherwise a reload lands in (0, ini]. */
  lemma {:induction false} StepStaysInWindow(t: Timer, n: nat, isZero: bool)
    requires t.Valid() && t.mode != 1 && -0x10000 < t.cur <= t.ini
    ensures -0x10000 < Step(t, n, isZero).cur <= t.ini
    ensures t.running ==> (Fires(t, n) <==> t.cur - n <= -0x10000)
  {
    if t.running && Wraps(t.cur - n) > 0 {
      var p := if t.ini == 0 then 0x10000 else t.ini;
      assert 0 <= (-(t.cur - n)) % p < p;
    }
  }

  /** With initial count 0, a counter at 0 fires after exactly 0x10000 steps
      and is back at 0. */
  lemma FullPeriod(t: Timer)
    requires t.Valid() && t.running && t.mode != 1 && t.ini == 0 && t.cur == 0
    ensures !Fires(t, 0xffff) && Fires(t, 0x10000)
    ensures Step(t, 0x10000, true).cur == 0 && Step(t, 0x10000, true).pending
  {
  }

  /** As written, a counter loaded with a small count that runs a few steps
      past zero is neither reloaded nor made pending: the wrap is noticed
      only 0x10000 steps below zero. */
  lemma SmallOvershootNotReloaded(t: Timer)
    requires t.Valid() && t.running && t.mode == 2 && t.ini == 100 && t.cur == 0
    ensures Step(t, 5, true).cur == -5 && !Fires(t, 5)
    ensures Step(t, 5, true).pending == t.pending
  {
  }

  /** The whole of Tick on the three counters. */
  function StepAll(ts: seq<Timer>, n: int): (r: seq<Timer>)
    requires |ts| == 3 && forall i :: 0 <= i < 3 ==> ts[i].Valid()
    ensures |r| == 3 && forall i :: 0 <= i < 3 ==> r[i].Valid() && r[i] == Step(ts[i], n, i == 0)
  {
    [Step(ts[0], n, true), Step(ts[1], n, false), Step(ts[2], n, false)]
  }

  /** Only counter 0 can become pending during Tick. */
  lemma OnlyCounterZeroPends(ts: seq<Timer>, n: int)
    requires |ts| == 3 && forall i :: 0 <= i < 3 ==> ts[i].Valid()
    ensures forall i :: 1 <= i < 3 ==> StepAll(ts, n)[i].pending == ts[i].pending
    ensures StepAll(ts, n)[0].pending == (ts[0].pending || Fires(ts[0], n))
  {
  }

  /** The counter a port selects. */
  function PortCounter(port: int): int { port - 0x40 }

  /** The OR of the pending flags: IO_Write's answer. */
  predicate AnyPending(ts: seq<Timer>)
    requires |ts| == 3
  {
    ts[0].pending || ts[1].pending || ts[2].pending
  }

  /** The timer device. */
  class I8253 {
    var timers: seq<Timer>
    /** Cycles not yet turned into counter steps. */
    var clock: int
    const pic: Pic.I8259

    ghost predicate Valid()
      reads this, pic
    {
      |timers| == 3 && (forall i :: 0 <= i < 3 ==> timers[i].Valid()) && pic.Valid()
    }

    constructor (pic: Pic.I8259)
      requires pic.Valid()
      ensures Valid() && this.pic == pic
      ensures timers == [IDLE, IDLE, IDLE] && clock == 0
    {
      timers := [IDLE, IDLE, IDLE];
      clock := 0;
      this.pic := pic;
    }

    function GetIRQNumber(): (r: int)
      ensures r == IRQ
    { IRQ }

    /** The timer wants every Tick. */
    function Ticks(): (r: bool)
      ensures r
    { true }

    /** Ports 0x40..0x43. */
    function RegisterDevice(): (ports: seq<int>)
      ensures forall p :: p in ports <==> 0x40 <= p <= 0x43
    { [0x40, 0x41, 0x42, 0x43] }

    /** The timer has no memory window; a memory read answers 0xee. */
    function GetAddressList(): (r: seq<(int, int)>)
      ensures r == []
    { [] }

    function ReadByte(offset: int): (r: int)
      ensures r == 0xee
    { 0xee }

    method LatchCounter(nr: int, v: int)
      requires Valid() && 0 <= nr < 3 && IsByte(v)
      modifies this
      ensures Valid() && timers == old(timers)[nr := Load(old(timers)[nr], v)] && clock == old(clock)
    {
      timers := timers[nr := Load(timers[nr], v)];
    }

    method GetCounter(nr: int, coin: bool) returns (rc: int)
      requires Valid() && 0 <= nr < 3
      modifies this
      ensures Valid() && clock == old(clock)
      ensures (timers[nr], rc) == ReadCounter(old(timers)[nr], coin)
      ensures timers == old(timers)[nr := timers[nr]]
    {
      var r := ReadCounter(timers[nr], coin);
      timers := timers[nr := r.0];
      rc := r.1;
    }

    /** Ports 0x40..0x42 read their counter; any other answers 0xaa. */
    method IO_Read(port: int, coin: bool) returns (v: int)
      requires Valid()
      modifies this
      ensures Valid() && IsByte(v) && clock == old(clock)
      ensures 0x40 <= port <= 0x42 ==>
                (timers[PortCounter(port)], v) == ReadCounter(old(timers)[PortCounter(port)], coin) &&
                timers == old(timers)[PortCounter(port) := timers[PortCounter(port)]]
      ensures !(0x40 <= port <= 0x42) ==> v == 0xaa && timers == old(timers)
    {
      if 0x40 <= port <= 0x42 {
        v := GetCounter(port - 0x40, coin);
      } else {
        v := 0xaa;
      }
    }

    /** Ports 0x40..0x42 load their counter, 0x43 takes a mode byte; the
        answer is whether any counter is pending. */
    method IO_Write(port: int, value: int) returns (r: bool)
      requires Valid() && IsByte(value)
      modifies this
      ensures Valid() && clock == old(clock)
      ensures 0x40 <= port <= 0x42 ==> timers == old(timers)[PortCounter(port) := Load(old(timers)[PortCounter(port)], value)]
      ensures port == 0x43 ==> timers == Command(old(timers), value)
      ensures !(0x40 <= port <= 0x43) ==> timers == old(timers)
      ensures r == AnyPending(timers)
    {
      if 0x40 <= port <= 0x42 {
        LatchCounter(port - 0x40, value);
      } else if port == 0x43 {
        timers := Command(timers, value);
      }
      r := timers[0].pending || timers[1].pending || timers[2].pending;
    }

    /** Tick: the cycles accumulate until there are at least four; then every
        running counter takes clock / 4 steps, the remainder is kept, and a
        wrap of counter 0 requests IRQ 0. */
    method Tick(ticks: int) returns (interrupt: bool)
      requires Valid()
      modifies this, pic
      ensures Valid()
      ensures old(clock) + ticks < CYCLES_PER_STEP ==>
                !interrupt && clock == old(clock) + ticks && timers == old(timers) && pic.regs == old(pic.regs)
      ensures old(clock) + ticks >= CYCLES_PER_STEP ==>
                var n := (old(clock) + ticks) / CYCLES_PER_STEP;
                clock == (old(clock) + ticks) % CYCLES_PER_STEP &&
                timers == StepAll(old(timers), n) &&
                interrupt == Fires(old(timers)[0], n) &&
                pic.regs == (if interrupt then Pic.Request(old(pic.regs), IRQ) else old(pic.regs))
    {
      clock := clock + ticks;
      if clock < CYCLES_PER_STEP {
        return false;
      }
      var n := clock / CYCLES_PER_STEP;
      var ts := timers;
      interrupt := false;
      var i := 0;
      while i < 3
        invariant 0 <= i <= 3 && |ts| == 3
        invariant forall j :: 0 <= j < i ==> ts[j] == Step(old(timers)[j], n, j == 0)
        invariant forall j :: i <= j < 3 ==> ts[j] == old(timers)[j]
        invariant interrupt == (i > 0 && Fires(old(timers)[0], n))
      {
        var t := ts[i];
        if t.running {
          var c := t.cur - n;
          t := t.(cur := c);
          var wraps := if c < 0 then (-c) / 0x10000 else 0;
          if wraps > 0 {
            if t.mode != 1 {
              t := t.(cur := t.ini - ((-c) % (if t.ini == 0 then 0x10000 else t.ini)));
            } else {
              t := t.(cur := c % 0x10000);
            }
            if i == 0 {
              t := t.(pending := true);
              interrupt := true;
            }
          }
        }
        ts := ts[i := t];
        i := i + 1;
      }
      timers := ts;
      clock := clock - n * CYCLES_PER_STEP;
      if interrupt {
        pic.RequestInterruptPIC(IRQ);
      }
    }
  }
}
