/** IO port dispatch (io.py): the byte and word IN and OUT the processor
    issues, routed through a map from port to device, and the OR of the
    devices' Tick answers.

    The devices themselves are a state S and three functions standing for
    their IO_Read, IO_Write and Tick; `d` names a device by its position in
    the machine's device list.  A device call may change S (a keyboard read
    dequeues a scancode, a status read clears bits), so S is threaded through
    the calls in the order the dispatcher makes them. */
module Io {
  import opened Bits

  /** A port with no device that still answers: the expansion-bus check. */
  const VERIFY_PORT: int := 0x0210

  /** IN: test mode answers 65535 without touching a device; a mapped port
      answers its device's IO_Read, and a word access ORs in the next port's
      answer shifted left by 8 when that port is mapped too; an unmapped port
      answers 0xa5 at 0x210 and all ones otherwise. */
  function In<S>(ioMap: map<int, nat>, testMode: bool, read: (S, nat, int) -> (S, nat),
                 s: S, addr: int, b16: bool): (r: (S, nat))
    ensures testMode ==> r == (s, 65535)
    ensures !testMode && addr !in ioMap ==>
              r == (s, if addr == VERIFY_PORT then 0xa5 else if b16 then 0xffff else 0xff)
    ensures !testMode && addr in ioMap && (!b16 || (addr + 1) % 0x10000 !in ioMap) ==>
              r == read(s, ioMap[addr], addr)
  {
    if testMode then (s, 65535)
    else if addr in ioMap then
      var lo := read(s, ioMap[addr], addr);
      var next := (addr + 1) % 0x10000;
      if b16 && next in ioMap then
        var hi := read(lo.0, ioMap[next], next);
        (hi.0, BitOr(lo.1, hi.1 * 256))
      else lo
    else if addr == VERIFY_PORT then (s, 0xa5)
    else (s, if b16 then 0xffff else 0xff)
  }

  /** A word IN over two mapped ports reads `addr` first, then the next port
      (wrapping at 0x10000) from the state the first read left; when the
      first device answers a byte, the word is low + 256 * high. */
  lemma WordIn<S>(ioMap: map<int, nat>, read: (S, nat, int) -> (S, nat), s: S, addr: int)
    requires addr in ioMap && (addr + 1) % 0x10000 in ioMap
    requires IsByte(read(s, ioMap[addr], addr).1)
    ensures var lo := read(s, ioMap[addr], addr);
            var next := (addr + 1) % 0x10000;
            var hi := read(lo.0, ioMap[next], next);
            In(ioMap, false, read, s, addr, true) == (hi.0, lo.1 + 256 * hi.1)
  {
    var lo := read(s, ioMap[addr], addr);
    var next := (addr + 1) % 0x10000;
    var hi := read(lo.0, ioMap[next], next);
    Pow2Values();
    BitOrDisjoint(lo.1, hi.1, 8);
  }

  /** OUT: test mode answers False and writes nothing; a mapped port gets the
      low byte, and for a word the next port (when mapped) gets the value
      shifted right by 8; the answer is the OR of the devices' answers, or
      False for an unmapped port. */
  function Out<S>(ioMap: map<int, nat>, testMode: bool, write: (S, nat, int, int) -> (S, bool),
                  s: S, addr: int, value: int, b16: bool): (r: (S, bool))
    ensures testMode || addr !in ioMap ==> r == (s, false)
    ensures !testMode && addr in ioMap && (!b16 || (addr + 1) % 0x10000 !in ioMap) ==>
              r == write(s, ioMap[addr], addr, value % 256)
  {
    if testMode then (s, false)
    else if addr in ioMap then
      var lo := write(s, ioMap[addr], addr, value % 256);
      var next := (addr + 1) % 0x10000;
      if b16 && next in ioMap then
        var hi := write(lo.0, ioMap[next], next, value / 256);
        (hi.0, lo.1 || hi.1)
      else lo
    else (s, false)
  }

  /** A word OUT hands both devices a byte, low then high, and IN's way of
      joining two bytes gives the word back. */
  lemma WordOutSplit<S>(ioMap: map<int, nat>, write: (S, nat, int, int) -> (S, bool), s: S, addr: int, value: int)
    requires IsWord(value)
    requires addr in ioMap && (addr + 1) % 0x10000 in ioMap
    ensures var lo := write(s, ioMap[addr], addr, value % 256);
            var next := (addr + 1) % 0x10000;
            var hi := write(lo.0, ioMap[next], next, value / 256);
            Out(ioMap, false, write, s, addr, value, true) == (hi.0, lo.1 || hi.1)
    ensures IsByte(value % 256) && IsByte(value / 256)
    ensures BitOr(value % 256, (value / 256) * 256) == value
  {
    Pow2Values();
    BitOrDisjoint(value % 256, value / 256, 8);
  }

  /** Tick: every tick device in turn, each from the state the previous one
      left; the answer is the OR of their answers. */
  function TickAll<S>(tick: (S, nat, int, int) -> (S, bool), devs: seq<nat>,
                      s: S, ticks: int, clock: int): (r: (S, bool))
    ensures |devs| == 0 ==> r == (s, false)
    decreases |devs|
  {
    if |devs| == 0 then (s, false)
    else
      var t := TickAll(tick, devs[..|devs| - 1], s, ticks, clock);
      var u := tick(t.0, devs[|devs| - 1], ticks, clock);
      (u.0, t.1 || u.1)
  }

  /** Each tick device's own answer, in the order they are ticked. */
  function TickAnswers<S>(tick: (S, nat, int, int) -> (S, bool), devs: seq<nat>,
                          s: S, ticks: int, clock: int): (r: seq<bool>)
    ensures |r| == |devs|
    decreases |devs|
  {
    if |devs| == 0 then []
    else
      var t := TickAll(tick, devs[..|devs| - 1], s, ticks, clock);
      TickAnswers(tick, devs[..|devs| - 1], s, ticks, clock) + [tick(t.0, devs[|devs| - 1], ticks, clock).1]
  }

  predicate AnyTrue(bs: seq<bool>) {
    exists i :: 0 <= i < |bs| && bs[i]
  }

  /** Tick answers True exactly when some tick device answered True. */
  lemma {:induction false} TickIsAny<S>(tick: (S, nat, int, int) -> (S, bool), devs: seq<nat>,
                                        s: S, ticks: int, clock: int)
    ensures TickAll(tick, devs, s, ticks, clock).1 == AnyTrue(TickAnswers(tick, devs, s, ticks, clock))
    decreases |devs|
  {
    if |devs| > 0 {
      var p := devs[..|devs| - 1];
      TickIsAny(tick, p, s, ticks, clock);
      var a := TickAnswers(tick, devs, s, ticks, clock);
      var ap := TickAnswers(tick, p, s, ticks, clock);
      var t := TickAll(tick, p, s, ticks, clock);
      var u := tick(t.0, devs[|devs| - 1], ticks, clock);
      assert a == ap + [u.1];
      if AnyTrue(ap) {
        var i :| 0 <= i < |ap| && ap[i];
        assert a[i];
      }
      if u.1 {
        assert a[|ap|];
      }
      if AnyTrue(a) {
        var i :| 0 <= i < |a| && a[i];
        if i < |ap| {
          assert ap[i];
        }
      }
    }
  }
}
