/** The machine's IO object (pc_io.py): at construction it picks the devices
    that want ticks, appends the DMA controller and the interrupt controller
    to the device list, and lets every device register its ports in that
    order, so a later registrant takes a port over from an earlier one.  IN,
    OUT and Tick then dispatch as the Io module states.

    Device d is the d-th of the caller's devices; the DMA controller comes
    right after them and the interrupt controller last.  A device's
    RegisterDevice is the list of ports it claims.  Handing each device the
    DMA, PIC and bus references is wiring the model leaves to S. */
module PcIo {
  import opened Bits
  import Io

  /** The ports the 8237 DMA controller registers. */
  const DMA_PORTS: seq<int> := [0x00, 0x01, 0x02, 0x03, 0x04, 0x05, 0x06, 0x07,
                                0x08, 0x09, 0x0a, 0x0b, 0x0c, 0x0d, 0x0e, 0x0f,
                                0x81, 0x82, 0x83, 0x87]

  /** The ports the 8259 interrupt controller registers. */
  const PIC_PORTS: seq<int> := [0x20, 0x21]

  /** One device registering its ports over the map built so far. */
  function Register(m: map<int, nat>, ports: seq<int>, d: nat): (r: map<int, nat>)
    ensures forall p :: p in r <==> p in m || p in ports
    ensures forall p :: p in ports ==> r[p] == d
    ensures forall p :: p in m && p !in ports ==> r[p] == m[p]
    decreases |ports|
  {
    if |ports| == 0 then m
    else Register(m, ports[..|ports| - 1], d)[ports[|ports| - 1] := d]
  }

  /** The map after the first n devices registered, in order. */
  function PortMap(lists: seq<seq<int>>, n: nat): map<int, nat>
    requires n <= |lists|
  {
    if n == 0 then map[] else Register(PortMap(lists, n - 1), lists[n - 1], n - 1)
  }

  /** A port is mapped iff some device lists it, and it belongs to the last
      device that does. */
  lemma {:induction false} LastRegistrantWins(lists: seq<seq<int>>, n: nat, p: int)
    requires n <= |lists|
    ensures p in PortMap(lists, n) <==> exists d :: 0 <= d < n && p in lists[d]
    ensures p in PortMap(lists, n) ==>
              var d := PortMap(lists, n)[p];
              d < n && p in lists[d] && forall e :: d < e < n ==> p !in lists[e]
  {
    if n > 0 {
      LastRegistrantWins(lists, n - 1, p);
      if p in lists[n - 1] {
        assert PortMap(lists, n)[p] == n - 1;
      } else if exists d :: 0 <= d < n && p in lists[d] {
        var d :| 0 <= d < n && p in lists[d];
        assert d < n - 1;
      }
    }
  }

  /** The positions of the devices whose Ticks() is true, among the first n. */
  function TickFilter(ticks: seq<bool>, n: nat): (r: seq<nat>)
    requires n <= |ticks|
    ensures forall i :: 0 <= i < |r| ==> r[i] < n
    decreases n
  {
    if n == 0 then []
    else TickFilter(ticks, n - 1) + (if ticks[n - 1] then [n - 1] else [])
  }

  /** The tick list holds exactly the devices that tick, in device order. */
  lemma {:induction false} TickFilterExact(ticks: seq<bool>, n: nat)
    requires n <= |ticks|
    ensures forall d :: d in TickFilter(ticks, n) <==> 0 <= d < n && ticks[d]
    ensures forall i, j :: 0 <= i < j < |TickFilter(ticks, n)| ==> TickFilter(ticks, n)[i] < TickFilter(ticks, n)[j]
    decreases n
  {
    if n > 0 {
      TickFilterExact(ticks, n - 1);
    }
  }

  /** Whatever the other devices claim, the DMA controller owns its ports and
      the interrupt controller owns 0x20 and 0x21. */
  lemma ChipsetPortsWin(devicePorts: seq<seq<int>>)
    ensures var lists := devicePorts + [DMA_PORTS, PIC_PORTS];
            var m := PortMap(lists, |lists|);
            (forall p :: p in DMA_PORTS ==> p in m && m[p] == |devicePorts|) &&
            (forall p :: p in PIC_PORTS ==> p in m && m[p] == |devicePorts| + 1)
  {
    var lists := devicePorts + [DMA_PORTS, PIC_PORTS];
    var n := |devicePorts|;
    assert forall p :: p in PIC_PORTS ==> p !in DMA_PORTS;
    assert PortMap(lists, n + 2) == Register(Register(PortMap(lists, n), DMA_PORTS, n), PIC_PORTS, n + 1);
  }

  class IO<S> {
    const ioMap: map<int, nat>
    const tickDevices: seq<nat>
    const testMode: bool
    const read: (S, nat, int) -> (S, nat)
    const write: (S, nat, int, int) -> (S, bool)
    const tick: (S, nat, int, int) -> (S, bool)
    /** The devices' own state. */
    var devs: S

    /** Builds the tick list and the port map by walking the devices. */
    constructor (devicePorts: seq<seq<int>>, deviceTicks: seq<bool>, testMode: bool, devs: S,
                 read: (S, nat, int) -> (S, nat), write: (S, nat, int, int) -> (S, bool),
                 tick: (S, nat, int, int) -> (S, bool))
      requires |devicePorts| == |deviceTicks|
      ensures tickDevices == TickFilter(deviceTicks, |deviceTicks|)
      ensures ioMap == PortMap(devicePorts + [DMA_PORTS, PIC_PORTS], |devicePorts| + 2)
      ensures this.testMode == testMode && this.devs == devs
      ensures this.read == read && this.write == write && this.tick == tick
    {
      var ticking: seq<nat> := [];
      var i := 0;
      while i < |deviceTicks|
        invariant 0 <= i <= |deviceTicks|
        invariant ticking == TickFilter(deviceTicks, i)
      {
        if deviceTicks[i] {
          ticking := ticking + [i];
        }
        i := i + 1;
      }
      var lists := devicePorts + [DMA_PORTS, PIC_PORTS];
      var m: map<int, nat> := map[];
      i := 0;
      while i < |lists|
        invariant 0 <= i <= |lists|
        invariant m == PortMap(lists, i)
      {
        var j := 0;
        while j < |lists[i]|
          invariant 0 <= j <= |lists[i]|
          invariant m == Register(PortMap(lists, i), lists[i][..j], i)
        {
          assert lists[i][..j + 1][..j] == lists[i][..j];
          m := m[lists[i][j] := i];
          j := j + 1;
        }
        assert lists[i][..|lists[i]|] == lists[i];
        i := i + 1;
      }
      tickDevices := ticking;
      ioMap := m;
      this.testMode := testMode;
      this.devs := devs;
      this.read := read;
      this.write := write;
      this.tick := tick;
    }

    method In(addr: int, b16: bool) returns (r: nat)
      modifies this
      ensures (devs, r) == Io.In(ioMap, testMode, read, old(devs), addr, b16)
    {
      if testMode {
        return 65535;
      }
      if addr in ioMap {
        var lo := read(devs, ioMap[addr], addr);
        devs, r := lo.0, lo.1;
        if b16 {
          var next := (addr + 1) % 0x10000;
          if next in ioMap {
            var hi := read(devs, ioMap[next], next);
            devs, r := hi.0, BitOr(r, hi.1 * 256);
          }
        }
        return r;
      }
      if addr == Io.VERIFY_PORT {
        return 0xa5;
      }
      r := if b16 then 0xffff else 0xff;
    }

    method Out(addr: int, value: int, b16: bool) returns (r: bool)
      modifies this
      ensures (devs, r) == Io.Out(ioMap, testMode, write, old(devs), addr, value, b16)
    {
      if testMode {
        return false;
      }
      r := false;
      if addr in ioMap {
        var lo := write(devs, ioMap[addr], addr, value % 256);
        devs, r := lo.0, r || lo.1;
        if b16 {
          var next := (addr + 1) % 0x10000;
          if next in ioMap {
            var hi := write(devs, ioMap[next], next, value / 256);
            devs, r := hi.0, r || hi.1;
          }
        }
        return r;
      }
      return false;
    }

    method Tick(ticks: int, clock: int) returns (r: bool)
      modifies this
      ensures (devs, r) == Io.TickAll(tick, tickDevices, old(devs), ticks, clock)
    {
      r := false;
      var i := 0;
      while i < |tickDevices|
        invariant 0 <= i <= |tickDevices|
        invariant (devs, r) == Io.TickAll(tick, tickDevices[..i], old(devs), ticks, clock)
      {
        assert tickDevices[..i + 1][..i] == tickDevices[..i];
        var u := tick(devs, tickDevices[i], ticks, clock);
        devs, r := u.0, r || u.1;
        i := i + 1;
      }
      assert tickDevices[..|tickDevices|] == tickDevices;
    }
  }
}
