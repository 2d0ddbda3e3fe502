/** The memory bus (bus.py): an ordered cache of address ranges built from the
    devices' segments, then the ROMs', then RAM last, and first-match lookup
    for byte reads and writes.  Each entry covers the half-open range
    [start, start + length) and carries its device's wait states.

    Devices other than RAM and ROM are seen through what the bus uses of them:
    their segment lists and wait states (DeviceMap), a read function standing
    for their ReadByte, and a log of the writes handed to their WriteByte.
    An entry names its device by owner: the i-th device, the i-th ROM, or
    the RAM. */
module Bus {
  import opened Bits
  import Rom
  import Memory

  datatype Owner = Dev(i: nat) | RomImage(i: nat) | Ram

  datatype CacheEntry = CacheEntry(start: int, end: int, waitStates: int, owner: Owner)

  /** What the bus asks of a device: GetAddressList and GetWaitStateCycles. */
  datatype DeviceMap = DeviceMap(addressList: seq<(int, int)>, waitStates: int)

  /** A device write handed on by the bus: device index, address, byte. */
  type DeviceWrite = (nat, int, int)

  predicate Covers(e: CacheEntry, a: int) {
    e.start <= a < e.end
  }

  /** The entry `_AddEntries` makes for one (start, length) segment. */
  function EntryFor(seg: (int, int), ws: int, owner: Owner): (e: CacheEntry)
    ensures forall a :: Covers(e, a) <==> seg.0 <= a < seg.0 + seg.1
    ensures e.waitStates == ws && e.owner == owner
  {
    CacheEntry(seg.0, seg.0 + seg.1, ws, owner)
  }

  function SegmentEntries(segs: seq<(int, int)>, ws: int, owner: Owner): (r: seq<CacheEntry>)
    ensures |r| == |segs|
    ensures forall j :: 0 <= j < |segs| ==> r[j] == EntryFor(segs[j], ws, owner)
  {
    seq(|segs|, j requires 0 <= j < |segs| => EntryFor(segs[j], ws, owner))
  }

  /** The entries of the first n devices, in order. */
  function DeviceEntries(devs: seq<DeviceMap>, n: nat): (r: seq<CacheEntry>)
    requires n <= |devs|
    ensures forall k :: 0 <= k < |r| ==>
              r[k].owner.Dev? && r[k].owner.i < n && r[k].waitStates == devs[r[k].owner.i].waitStates
  {
    if n == 0 then []
    else DeviceEntries(devs, n - 1) + SegmentEntries(devs[n - 1].addressList, devs[n - 1].waitStates, Dev(n - 1))
  }

  /** The entries of the first n ROMs (a ROM keeps the default 0 wait states). */
  function RomEntries(roms: seq<Rom.Rom>, n: nat): (r: seq<CacheEntry>)
    requires n <= |roms|
    ensures |r| == n
    ensures forall k :: 0 <= k < n ==> r[k] == EntryFor((roms[k].offset, |roms[k].contents|), 0, RomImage(k))
  {
    if n == 0 then []
    else RomEntries(roms, n - 1) + SegmentEntries(Rom.GetAddressList(roms[n - 1]), 0, RomImage(n - 1))
  }

  function RamEntry(size: nat): (e: CacheEntry)
    ensures forall a :: Covers(e, a) <==> 0 <= a < size
    ensures e.owner == Ram && e.waitStates == 0
  {
    EntryFor((0, size), 0, Ram)
  }

  /** RecreateCache: devices, then ROMs, then RAM. */
  function BuildCache(devs: seq<DeviceMap>, roms: seq<Rom.Rom>, size: nat): seq<CacheEntry> {
    DeviceEntries(devs, |devs|) + RomEntries(roms, |roms|) + [RamEntry(size)]
  }

  /** The RAM entries cover exactly the RAM. */
  predicate RamCovered(c: seq<CacheEntry>, size: nat) {
    forall k :: 0 <= k < |c| && c[k].owner.Ram? ==> c[k] == RamEntry(size)
  }

  /** ROM and RAM entries cover exactly what those can serve. */
  predicate WellFormed(c: seq<CacheEntry>, roms: seq<Rom.Rom>, size: nat) {
    RamCovered(c, size) &&
    forall k :: 0 <= k < |c| && c[k].owner.RomImage? ==>
      c[k].owner.i < |roms| &&
      c[k] == EntryFor((roms[c[k].owner.i].offset, |roms[c[k].owner.i].contents|), 0, c[k].owner)
  }

  lemma BuildCacheWellFormed(devs: seq<DeviceMap>, roms: seq<Rom.Rom>, size: nat)
    ensures WellFormed(BuildCache(devs, roms, size), roms, size)
  {
    var d := DeviceEntries(devs, |devs|);
    var c := BuildCache(devs, roms, size);
    forall k | 0 <= k < |c|
      ensures c[k].owner.Ram? ==> c[k] == RamEntry(size)
      ensures c[k].owner.RomImage? ==>
                c[k].owner.i < |roms| &&
                c[k] == EntryFor((roms[c[k].owner.i].offset, |roms[c[k].owner.i].contents|), 0, c[k].owner)
    {
      if k < |d| {
        assert c[k] == d[k];
      } else if k < |d| + |roms| {
        assert c[k] == RomEntries(roms, |roms|)[k - |d|];
      }
    }
  }

  /** The position of the first entry covering a, or -1 when none does. */
  function FirstMatch(c: seq<CacheEntry>, a: int): (r: int)
    ensures -1 <= r < |c|
    ensures r >= 0 ==> Covers(c[r], a) && forall j :: 0 <= j < r ==> !Covers(c[j], a)
    ensures r == -1 ==> forall j :: 0 <= j < |c| ==> !Covers(c[j], a)
  {
    if |c| == 0 then -1
    else if Covers(c[0], a) then 0
    else
      var r := FirstMatch(c[1..], a);
      if r == -1 then -1 else r + 1
  }

  /** ReadByte: the first covering entry's device answers, with that entry's
      wait states; no covering entry gives (0xff, 1). */
  function ReadSpec(c: seq<CacheEntry>, roms: seq<Rom.Rom>, ram: seq<int>,
                    devRead: (nat, int) -> int, a: int): (r: (int, int))
    requires WellFormed(c, roms, |ram|)
  {
    var k := FirstMatch(c, a);
    if k < 0 then (0xff, 1)
    else
      match c[k].owner
      case Dev(i) => (devRead(i, a), c[k].waitStates)
      case RomImage(i) => (Rom.ReadByte(roms[i], a), c[k].waitStates)
      case Ram => (ram[a], c[k].waitStates)
  }

  /** WriteByte: RAM stores the byte, a ROM ignores it, another device
      receives it (the log); the answer is the entry's wait states, or 1 when
      no entry covers the address. */
  function WriteSpec(c: seq<CacheEntry>, ram: seq<int>, log: seq<DeviceWrite>, a: int, v: int)
    : (r: (seq<int>, seq<DeviceWrite>, int))
    requires RamCovered(c, |ram|)
    ensures |r.0| == |ram|
  {
    var k := FirstMatch(c, a);
    if k < 0 then (ram, log, 1)
    else
      match c[k].owner
      case Dev(i) => (ram, log + [(i, a, v)], c[k].waitStates)
      case RomImage(_) => (ram, log, c[k].waitStates)
      case Ram => (ram[a := v], log, c[k].waitStates)
  }
  /** Devices come first (0), then ROMs (1), then RAM (2). */
  function Rank(o: Owner): nat {
    match o
    case Dev(_) => 0
    case RomImage(_) => 1
    case Ram => 2
  }

  /** The cache is ordered devices, ROMs, RAM, and the RAM entry is last. */
  lemma CacheOrder(devs: seq<DeviceMap>, roms: seq<Rom.Rom>, size: nat)
    ensures var c := BuildCache(devs, roms, size);
            c[|c| - 1] == RamEntry(size) &&
            forall i, j :: 0 <= i < j < |c| ==> Rank(c[i].owner) <= Rank(c[j].owner)
  {
    var d := DeviceEntries(devs, |devs|);
    var c := BuildCache(devs, roms, size);
    assert forall k :: 0 <= k < |c| ==>
      Rank(c[k].owner) == if k < |d| then 0 else if k < |d| + |roms| then 1 else 2;
  }

  /** Every segment of the first n devices has its entry among theirs. */
  lemma {:induction false} DeviceEntryPresent(devs: seq<DeviceMap>, n: nat, i: nat, s: nat)
    requires i < n <= |devs| && s < |devs[i].addressList|
    ensures EntryFor(devs[i].addressList[s], devs[i].waitStates, Dev(i)) in DeviceEntries(devs, n)
  {
    var e := EntryFor(devs[i].addressList[s], devs[i].waitStates, Dev(i));
    if i == n - 1 {
      assert SegmentEntries(devs[i].addressList, devs[i].waitStates, Dev(i))[s] == e;
    } else {
      DeviceEntryPresent(devs, n - 1, i, s);
    }
  }

  /** A device segment covering `a` shadows every ROM and the RAM: the first
      covering entry belongs to a device. */
  lemma DeviceShadowsRam(devs: seq<DeviceMap>, roms: seq<Rom.Rom>, size: nat, a: int, i: nat, s: nat)
    requires i < |devs| && s < |devs[i].addressList|
    requires devs[i].addressList[s].0 <= a < devs[i].addressList[s].0 + devs[i].addressList[s].1
    ensures var c := BuildCache(devs, roms, size);
            var k := FirstMatch(c, a);
            0 <= k < |DeviceEntries(devs, |devs|)| && c[k].owner.Dev?
  {
    var d := DeviceEntries(devs, |devs|);
    var c := BuildCache(devs, roms, size);
    DeviceEntryPresent(devs, |devs|, i, s);
    var p :| 0 <= p < |d| && d[p] == EntryFor(devs[i].addressList[s], devs[i].waitStates, Dev(i));
    assert c[p] == d[p];
    var k := FirstMatch(c, a);
    assert k <= p;
    assert c[k] == d[k];
  }

  /** No device segment covers `a`. */
  predicate NoDeviceCovers(devs: seq<DeviceMap>, a: int) {
    forall e :: e in DeviceEntries(devs, |devs|) ==> !Covers(e, a)
  }

  /** With no device in the way, a ROM mapping `a` shadows the RAM. */
  lemma RomShadowsRam(devs: seq<DeviceMap>, roms: seq<Rom.Rom>, size: nat, a: int, i: nat)
    requires NoDeviceCovers(devs, a)
    requires i < |roms| && Rom.Maps(roms[i], a)
    ensures var c := BuildCache(devs, roms, size);
            var k := FirstMatch(c, a);
            0 <= k < |c| - 1 && c[k].owner.RomImage?
  {
    var d := DeviceEntries(devs, |devs|);
    var c := BuildCache(devs, roms, size);
    var p := |d| + i;
    assert c[p] == RomEntries(roms, |roms|)[i];
    forall j | 0 <= j < |d|
      ensures !Covers(c[j], a)
    {
      assert c[j] == d[j];
    }
    var k := FirstMatch(c, a);
    assert k <= p;
    assert c[k] == RomEntries(roms, |roms|)[k - |d|];
  }

  /** Addresses no device or ROM claims go to RAM when inside it, and nowhere
      otherwise: a read there answers (0xff, 1) and a write is dropped with
      the answer 1. */
  lemma RamOrNothing(devs: seq<DeviceMap>, roms: seq<Rom.Rom>, ram: seq<int>, log: seq<DeviceWrite>,
                     devRead: (nat, int) -> int, a: int, v: int)
    requires NoDeviceCovers(devs, a)
    requires forall i :: 0 <= i < |roms| ==> !Rom.Maps(roms[i], a)
    ensures var c := BuildCache(devs, roms, |ram|);
            WellFormed(c, roms, |ram|) &&
            (0 <= a < |ram| ==> FirstMatch(c, a) == |c| - 1 && ReadSpec(c, roms, ram, devRead, a) == (ram[a], 0)) &&
            (!(0 <= a < |ram|) ==> ReadSpec(c, roms, ram, devRead, a) == (0xff, 1) &&
                                   WriteSpec(c, ram, log, a, v) == (ram, log, 1))
  {
    var d := DeviceEntries(devs, |devs|);
    var c := BuildCache(devs, roms, |ram|);
    BuildCacheWellFormed(devs, roms, |ram|);
    forall k | 0 <= k < |c| - 1
      ensures !Covers(c[k], a)
    {
      if k < |d| {
        assert c[k] == d[k];
      } else {
        assert c[k] == RomEntries(roms, |roms|)[k - |d|];
      }
    }
    assert c[|c| - 1] == RamEntry(|ram|);
  }

  /** On an address the RAM serves, a write followed by a read answers the
      byte written, and no other RAM byte changes. */
  lemma RamRoundTrip(c: seq<CacheEntry>, roms: seq<Rom.Rom>, ram: seq<int>, log: seq<DeviceWrite>,
                     devRead: (nat, int) -> int, a: int, v: int)
    requires WellFormed(c, roms, |ram|)
    requires FirstMatch(c, a) >= 0 && c[FirstMatch(c, a)].owner.Ram?
    ensures var w := WriteSpec(c, ram, log, a, v);
            WellFormed(c, roms, |w.0|) &&
            ReadSpec(c, roms, w.0, devRead, a) == (v, 0) &&
            w.1 == log &&
            forall b :: 0 <= b < |ram| && b != a ==> w.0[b] == ram[b]
  {
  }

  /** The XT layout: the monochrome adapter's 32 KiB window at 0xB0000, an
      8 KiB BIOS image at 0xFE000 and 1 MiB of RAM.  The adapter and the BIOS
      answer inside their windows, RAM elsewhere below 1 MiB, and nothing
      above it. */
  lemma XtLayout(bios: seq<int>, ram: seq<int>, devRead: (nat, int) -> int)
    requires |bios| == 0x2000 && |ram| == 0x100000
    ensures var devs := [DeviceMap([(0xb0000, 0x8000)], 0)];
            var roms := [Rom.Rom(bios, 0xfe000)];
            var c := BuildCache(devs, roms, |ram|);
            WellFormed(c, roms, |ram|) &&
            ReadSpec(c, roms, ram, devRead, 0xb0010) == (devRead(0, 0xb0010), 0) &&
            ReadSpec(c, roms, ram, devRead, 0xfe005) == (bios[5], 0) &&
            ReadSpec(c, roms, ram, devRead, 0x400) == (ram[0x400], 0) &&
            ReadSpec(c, roms, ram, devRead, 0x100000) == (0xff, 1)
  {
    var devs := [DeviceMap([(0xb0000, 0x8000)], 0)];
    var roms := [Rom.Rom(bios, 0xfe000)];
    var c := BuildCache(devs, roms, |ram|);
    BuildCacheWellFormed(devs, roms, |ram|);
    DeviceShadowsRam(devs, roms, |ram|, 0xb0010, 0, 0);
    var d := DeviceEntries(devs, 1);
    assert d == [CacheEntry(0xb0000, 0xb8000, 0, Dev(0))] by {
      assert DeviceEntries(devs, 0) == [];
    }
    RomShadowsRam(devs, roms, |ram|, 0xfe005, 0);
    RamOrNothing(devs, roms, ram, [], devRead, 0x400, 0);
    RamOrNothing(devs, roms, ram, [], devRead, 0x100000, 0);
  }

  /** The bus object: RAM it creates itself, the devices and ROMs it is
      given, the range cache, and the writes it handed to devices. */
  class Bus {
    const size: nat
    const devices: seq<DeviceMap>
    const roms: seq<Rom.Rom>
    const ram: Memory.Memory
    var cache: seq<CacheEntry>
    var deviceWrites: seq<DeviceWrite>

    ghost predicate Valid()
      reads this, ram
    {
      ram.m.Length == size && cache == BuildCache(devices, roms, size)
    }

    /** A fresh bus: RAM of `size` bytes, all 255, and the cache built. */
    constructor (size: nat, devices: seq<DeviceMap>, roms: seq<Rom.Rom>)
      ensures Valid() && fresh(ram) && fresh(ram.m)
      ensures this.size == size && this.devices == devices && this.roms == roms
      ensures deviceWrites == [] && forall a :: 0 <= a < size ==> ram.m[a] == 255
    {
      this.size := size;
      this.devices := devices;
      this.roms := roms;
      ram := new Memory.Memory(size);
      cache := [];
      deviceWrites := [];
      new;
      RecreateCache();
    }

    /** The entries of one device's segments, appended in order. */
    method AddEntries(segs: seq<(int, int)>, ws: int, owner: Owner)
      modifies this
      ensures cache == old(cache) + SegmentEntries(segs, ws, owner)
      ensures deviceWrites == old(deviceWrites)
    {
      var j := 0;
      while j < |segs|
        invariant 0 <= j <= |segs|
        invariant cache == old(cache) + SegmentEntries(segs[..j], ws, owner)
        invariant deviceWrites == old(deviceWrites)
      {
        assert SegmentEntries(segs[..j + 1], ws, owner) == SegmentEntries(segs[..j], ws, owner) + [EntryFor(segs[j], ws, owner)];
        cache := cache + [EntryFor(segs[j], ws, owner)];
        j := j + 1;
      }
      assert segs[..|segs|] == segs;
    }

    method RecreateCache()
      requires ram.m.Length == size
      modifies this
      ensures Valid() && deviceWrites == old(deviceWrites)
    {
      cache := [];
      var i := 0;
      while i < |devices|
        invariant 0 <= i <= |devices|
        invariant cache == DeviceEntries(devices, i)
        invariant deviceWrites == old(deviceWrites)
      {
        AddEntries(devices[i].addressList, devices[i].waitStates, Dev(i));
        i := i + 1;
      }
      i := 0;
      while i < |roms|
        invariant 0 <= i <= |roms|
        invariant cache == DeviceEntries(devices, |devices|) + RomEntries(roms, i)
        invariant deviceWrites == old(deviceWrites)
      {
        AddEntries(Rom.GetAddressList(roms[i]), 0, RomImage(i));
        i := i + 1;
      }
      AddEntries(ram.GetAddressList(), 0, Ram);
    }

    /** The first entry covering `address` serves the read. */
    method ReadByte(address: int, devRead: (nat, int) -> int) returns (v: int, ws: int)
      requires Valid()
      ensures (v, ws) == ReadSpec(cache, roms, ram.m[..], devRead, address)
    {
      BuildCacheWellFormed(devices, roms, size);
      var i := 0;
      while i < |cache|
        invariant 0 <= i <= |cache|
        invariant forall j :: 0 <= j < i ==> !Covers(cache[j], address)
      {
        var e := cache[i];
        if e.start <= address < e.end {
          assert FirstMatch(cache, address) == i;
          match e.owner {
            case Dev(k) => v := devRead(k, address);
            case RomImage(k) => v := Rom.ReadByte(roms[k], address);
            case Ram => v := ram.ReadByte(address);
          }
          return v, e.waitStates;
        }
        i := i + 1;
      }
      return 0xff, 1;
    }

    /** The first entry covering `address` takes the byte. */
    method WriteByte(address: int, v: int) returns (ws: int)
      requires Valid() && IsByte(v)
      modifies this, ram.m
      ensures Valid()
      ensures (ram.m[..], deviceWrites, ws) == WriteSpec(cache, old(ram.m[..]), old(deviceWrites), address, v)
    {
      BuildCacheWellFormed(devices, roms, size);
      var i := 0;
      while i < |cache|
        invariant 0 <= i <= |cache|
        invariant forall j :: 0 <= j < i ==> !Covers(cache[j], address)
      {
        var e := cache[i];
        if e.start <= address < e.end {
          assert FirstMatch(cache, address) == i;
          match e.owner {
            case Dev(k) => deviceWrites := deviceWrites + [(k, address, v)];
            case RomImage(k) =>
            case Ram => ram.WriteByte(address, v);
          }
          return e.waitStates;
        }
        i := i + 1;
      }
      return 1;
    }
  }
}
