/** The XT-IDE hard-disk adapter (xtide.py): eight task-file registers on
    ports 0x300..0x30f (two ports per register), a sector buffer the host
    streams through the data port 0x300, and the commands IDENTIFY DRIVE,
    SEEK, READ MULTIPLE and WRITE MULTIPLE (SET FEATURES and INITIALIZE
    DRIVE PARAMETERS are refused with ABRT) on a fixed 614/4/17 geometry.

    The disk image files are byte sequences, one per drive; the serial
    number a drive reports (in the program, the text of the hash of the
    image's file name) is given per drive at construction. */
module XtIde {
  import opened Bits

  const CYLINDERS: int := 614
  const HEADS: int := 4
  const SECTORS_PER_TRACK: int := 17
  const SECTOR_SIZE: int := 512
  const TOTAL_SECTORS: int := 614 * 4 * 17
  /** The "no pending write" drive number. */
  const NO_TARGET: int := 255

  /** Status register bits. */
  const BSY: int := 128
  const DRDY: int := 64
  const DSC: int := 16
  const DRQ: int := 8
  const ERR: int := 1
  /** Error register: command aborted. */
  const ABRT: int := 4

  /** The model number, "PyPC". */
  const MODEL: seq<int> := [0x50, 0x79, 0x50, 0x43]

  function Zeros(n: nat): (r: seq<int>)
    ensures |r| == n && forall i :: 0 <= i < n ==> r[i] == 0
  {
    seq(n, _ => 0)
  }

  predicate AllBytes(s: seq<int>) {
    forall i :: 0 <= i < |s| ==> IsByte(s[i])
  }

  predicate AllWords(s: seq<int>) {
    forall i :: 0 <= i < |s| ==> IsWord(s[i])
  }

  /** The bytes PushSectorBufferWord stores for a run of words: each word
      low byte first. */
  function WordsToBytes(ws: seq<int>): (r: seq<int>)
    ensures |r| == 2 * |ws|
    decreases |ws|
  {
    if |ws| == 0 then []
    else WordsToBytes(ws[..|ws| - 1]) + [ws[|ws| - 1] % 256, ws[|ws| - 1] / 256]
  }

  /** Reading the buffer back as little-endian words gives the words pushed. */
  lemma {:induction false} WordsToBytesRoundTrip(ws: seq<int>)
    requires AllWords(ws)
    ensures AllBytes(WordsToBytes(ws))
    ensures forall w :: 0 <= w < |ws| ==>
              WordsToBytes(ws)[2 * w] + 256 * WordsToBytes(ws)[2 * w + 1] == ws[w]
    decreases |ws|
  {
    if |ws| > 0 {
      var p := ws[..|ws| - 1];
      WordsToBytesRoundTrip(p);
      var b := WordsToBytes(ws);
      assert b[..2 * |p|] == WordsToBytes(p);
      forall w | 0 <= w < |ws|
        ensures b[2 * w] + 256 * b[2 * w + 1] == ws[w]
      {
        if w < |p| {
          assert b[2 * w] == WordsToBytes(p)[2 * w];
          assert b[2 * w + 1] == WordsToBytes(p)[2 * w + 1];
          assert p[w] == ws[w];
        }
      }
    }
  }

  /** PushSectorBufferString: `length` characters as length / 2 words, the
      earlier character of each pair in the high byte, padded with zeros. */
  function StringWords(s: seq<int>, length: nat): (r: seq<int>)
    requires AllBytes(s)
    ensures |r| == length / 2 && AllWords(r)
    ensures forall k :: 0 <= k < length / 2 && 2 * k + 1 < |s| ==> r[k] == 256 * s[2 * k] + s[2 * k + 1]
  {
    seq(length / 2, k requires 0 <= k =>
      (if 2 * k < |s| then 256 * s[2 * k] else 0) + (if 2 * k + 1 < |s| then s[2 * k + 1] else 0))
  }

  /** The 256 words of the IDENTIFY DRIVE block, in the order the program
      pushes them. */
  function IdentifyWords(serial: seq<int>): (r: seq<int>)
    requires AllBytes(serial)
    ensures |r| == 256 && AllWords(r)
  {
    [64 + 32, CYLINDERS, 0, HEADS, SECTOR_SIZE * SECTORS_PER_TRACK, SECTOR_SIZE, SECTORS_PER_TRACK, 0, 0, 0]
    + StringWords(serial, 20)
    + [0, 0, 0]
    + [0, 0, 0, 0]
    + StringWords(MODEL, 40)
    + [1, 0, 1024, 0, 0, 0, 0, CYLINDERS, HEADS, SECTORS_PER_TRACK,
       TOTAL_SECTORS % 0x10000, TOTAL_SECTORS / 0x10000, 1,
       TOTAL_SECTORS % 0x10000, TOTAL_SECTORS / 0x10000, 0, 0]
    + Zeros(256 - 64)
  }

  /** Where the block puts the geometry, the serial number, the model name,
      LBA support and the capacity. */
  lemma IdentifyLayout(serial: seq<int>)
    requires AllBytes(serial) && |serial| >= 20
    ensures var w := IdentifyWords(serial);
            w[1] == CYLINDERS && w[3] == HEADS && w[6] == SECTORS_PER_TRACK &&
            w[5] == SECTOR_SIZE && w[4] == SECTOR_SIZE * SECTORS_PER_TRACK &&
            (forall k :: 0 <= k < 10 ==> w[10 + k] == 256 * serial[2 * k] + serial[2 * k + 1]) &&
            w[27] == 256 * 'P' as int + 'y' as int && w[28] == 256 * 'P' as int + 'C' as int && w[29] == 0 &&
            w[49] == 1024 &&
            w[54] == CYLINDERS && w[55] == HEADS && w[56] == SECTORS_PER_TRACK &&
            w[57] + 0x10000 * w[58] == TOTAL_SECTORS && w[60] + 0x10000 * w[61] == TOTAL_SECTORS
  {
    var w := IdentifyWords(serial);
    var sw := StringWords(serial, 20);
    forall k | 0 <= k < 10
      ensures w[10 + k] == 256 * serial[2 * k] + serial[2 * k + 1]
    {
      assert w[10 + k] == sw[k];
    }
  }

  /** The 512 bytes IDENTIFY DRIVE leaves in the sector buffer. */
  function IdentifyBlock(serial: seq<int>): (r: seq<int>)
    requires AllBytes(serial)
    ensures |r| == 512
  {
    WordsToBytes(IdentifyWords(serial))
  }

  /** A cylinder/head/sector address as the command loop walks it. */
  datatype Chs = Chs(cyl: nat, head: nat, sector: nat)

  /** The linear sector a CHS address names (sectors count from 1). */
  function Lba(p: Chs): int {
    (p.cyl * HEADS + p.head) * SECTORS_PER_TRACK + p.sector - 1
  }

  /** One step of the command loop: the next sector, wrapping to sector 1 of
      the next head after the last sector of a track, and to head 0 of the
      next cylinder after the last head. */
  function NextChs(p: Chs): (q: Chs)
  {
    if p.sector + 1 > SECTORS_PER_TRACK then
      if p.head + 1 == HEADS then Chs(p.cyl + 1, 0, 1) else Chs(p.cyl, p.head + 1, 1)
    else p.(sector := p.sector + 1)
  }

  function ChsAfter(p: Chs, k: nat): Chs
    decreases k
  {
    if k == 0 then p else NextChs(ChsAfter(p, k - 1))
  }

  /** Starting from a sector number within the track, every step of the
      walk moves to the next linear sector. */
  lemma NextIsNextLba(p: Chs)
    requires p.sector <= SECTORS_PER_TRACK
    ensures Lba(NextChs(p)) == Lba(p) + 1 && NextChs(p).sector <= SECTORS_PER_TRACK
  {
  }

  lemma {:induction false} ChsAfterLba(p: Chs, k: nat)
    requires p.sector <= SECTORS_PER_TRACK
    ensures Lba(ChsAfter(p, k)) == Lba(p) + k && ChsAfter(p, k).sector <= SECTORS_PER_TRACK
    decreases k
  {
    if k > 0 {
      ChsAfterLba(p, k - 1);
      NextIsNextLba(ChsAfter(p, k - 1));
    }
  }

  /** `fh.seek(lba * 512); fh.read(512)`: up to 512 bytes, fewer at the end of
      the image, none past it. */
  function SectorData(disk: seq<int>, lba: int): (r: seq<int>)
    ensures |r| <= SECTOR_SIZE
  {
    if lba < 0 || lba * SECTOR_SIZE >= |disk| then []
    else
      var off := lba * SECTOR_SIZE;
      disk[off..if off + SECTOR_SIZE <= |disk| then off + SECTOR_SIZE else |disk|]
  }

  /** `buf[512 * nr : 512 * nr + 512] = data`, with Python's clamping of the
      slice bounds: a short `data` makes the buffer shorter. */
  function Splice(buf: seq<int>, nr: nat, data: seq<int>): seq<int>
  {
    var lo := if SECTOR_SIZE * nr <= |buf| then SECTOR_SIZE * nr else |buf|;
    var hi := if SECTOR_SIZE * nr + SECTOR_SIZE <= |buf| then SECTOR_SIZE * nr + SECTOR_SIZE else |buf|;
    buf[..lo] + data + buf[hi..]
  }

  /** The sector buffer of READ MULTIPLE after its first k sectors. */
  function Filled(disk: seq<int>, p: Chs, count: nat, k: nat): seq<int>
    requires k <= count
    decreases k
  {
    if k == 0 then Zeros(count * SECTOR_SIZE)
    else Splice(Filled(disk, p, count, k - 1), k - 1, SectorData(disk, Lba(ChsAfter(p, k - 1))))
  }

  /** When all the sectors lie inside the image, READ MULTIPLE fills the
      buffer with consecutive sectors of the image starting at the
      addressed one. */
  lemma FilledFromDisk(disk: seq<int>, p: Chs, count: nat, k: nat)
    requires p.sector <= SECTORS_PER_TRACK && Lba(p) >= 0 && (Lba(p) + count) * SECTOR_SIZE <= |disk|
    requires k <= count
    ensures Filled(disk, p, count, k) ==
              disk[Lba(p) * SECTOR_SIZE .. Lba(p) * SECTOR_SIZE + k * SECTOR_SIZE] + Zeros((count - k) * SECTOR_SIZE)
  {
    FilledIsPrefix(disk, p, Lba(p), count, k);
  }

  /** The first k sectors from `base`, then zeros up to `count` sectors. */
  function Prefix(disk: seq<int>, base: nat, count: nat, k: nat): seq<int>
    requires k <= count && (base + count) * SECTOR_SIZE <= |disk|
  {
    disk[base * SECTOR_SIZE .. base * SECTOR_SIZE + k * SECTOR_SIZE] + Zeros((count - k) * SECTOR_SIZE)
  }

  lemma {:induction false} FilledIsPrefix(disk: seq<int>, p: Chs, base: nat, count: nat, k: nat)
    requires p.sector <= SECTORS_PER_TRACK && base == Lba(p) && (base + count) * SECTOR_SIZE <= |disk|
    requires k <= count
    ensures Filled(disk, p, count, k) == Prefix(disk, base, count, k)
    decreases k
  {
    if k > 0 {
      var j := k - 1;
      FilledIsPrefix(disk, p, base, count, j);
      FilledNext(disk, p, base, count, j);
    }
  }

  /** One more sector read keeps the buffer the prefix of the image. */
  lemma FilledNext(disk: seq<int>, p: Chs, base: nat, count: nat, j: nat)
    requires p.sector <= SECTORS_PER_TRACK && base == Lba(p) && (base + count) * SECTOR_SIZE <= |disk|
    requires j < count && Filled(disk, p, count, j) == Prefix(disk, base, count, j)
    ensures Filled(disk, p, count, j + 1) == Prefix(disk, base, count, j + 1)
  {
    ChsAfterLba(p, j);
    FillStep(disk, base, j, count, Lba(ChsAfter(p, j)), Filled(disk, p, count, j));
  }

  /** Reading sector l = base + j into slot j of a buffer that holds the j
      sectors from base and zeros after them. */
  lemma FillStep(disk: seq<int>, base: nat, j: nat, count: nat, l: int, prev: seq<int>)
    requires j < count && (base + count) * SECTOR_SIZE <= |disk| && l == base + j
    requires prev == Prefix(disk, base, count, j)
    ensures Splice(prev, j, SectorData(disk, l)) == Prefix(disk, base, count, j + 1)
  {
    var a := base * SECTOR_SIZE;
    var lo := j * SECTOR_SIZE;
    var hi := (j + 1) * SECTOR_SIZE;
    var z := (count - (j + 1)) * SECTOR_SIZE;
    assert hi == lo + SECTOR_SIZE && (count - j) * SECTOR_SIZE == z + SECTOR_SIZE;
    assert l * SECTOR_SIZE == a + lo;
    assert (base + count) * SECTOR_SIZE == a + hi + z;
    assert SectorData(disk, l) == disk[a + lo .. a + hi];
    assert prev == disk[a .. a + lo] + Zeros(z + SECTOR_SIZE);
    assert prev[..lo] == disk[a .. a + lo];
    assert prev[hi..] == Zeros(z);
    assert disk[a .. a + lo] + disk[a + lo .. a + hi] == disk[a .. a + hi];
  }

  /** Past the end of the image the reads come back short and the buffer
      shrinks with them: one sector read from an empty image leaves an
      empty buffer. */
  lemma ReadPastEndShrinks(p: Chs)
    ensures Filled([], p, 1, 1) == []
  {
    assert Filled([], p, 1, 0) == Zeros(SECTOR_SIZE);
  }

  /** StoreSectorBuffer as written: the image is opened in append mode, so
      the write lands at the end of the file whatever the seek chose. */
  function StoreAsWritten(disk: seq<int>, buf: seq<int>): (r: seq<int>)
    ensures |r| == |disk| + |buf| && r[..|disk|] == disk
  {
    disk + buf
  }

  /** A one-sector write to sector 0 of a two-sector image of zeros leaves
      sector 0 as it was and grows the image by a sector. */
  lemma AppendMissesTarget()
    ensures var disk := Zeros(2 * SECTOR_SIZE);
            var buf := seq(SECTOR_SIZE, _ => 1);
            SectorData(StoreAsWritten(disk, buf), 0) == Zeros(SECTOR_SIZE) &&
            SectorData(StoreAsWritten(disk, buf), 0) != buf &&
            |StoreAsWritten(disk, buf)| == 3 * SECTOR_SIZE
  {
    var disk := Zeros(2 * SECTOR_SIZE);
    var buf := seq(SECTOR_SIZE, _ => 1);
    assert SectorData(StoreAsWritten(disk, buf), 0) == disk[..SECTOR_SIZE];
    assert SectorData(StoreAsWritten(disk, buf), 0)[0] != buf[0];
  }

  /** StoreSectorBuffer as intended: the buffer overwrites the image at the
      byte offset, the image growing (with zeros before the offset) where
      the write reaches past its end. */
  function StoreAt(disk: seq<int>, off: int, buf: seq<int>): (r: seq<int>)
  {
    if off < 0 then disk
    else
      var padded := if off > |disk| then disk + Zeros(off - |disk|) else disk;
      padded[..off] + buf + (if off + |buf| < |padded| then padded[off + |buf|..] else [])
  }

  /** The written bytes read back at the offset, and every other byte of
      the image is unchanged. */
  lemma StoreReadBack(disk: seq<int>, off: nat, buf: seq<int>)
    ensures var r := StoreAt(disk, off, buf);
            |r| == (if off + |buf| > |disk| then off + |buf| else |disk|) &&
            r[off..off + |buf|] == buf &&
            (forall i :: 0 <= i < |disk| && (i < off || i >= off + |buf|) ==> r[i] == disk[i])
  {
  }

  /** WRITE MULTIPLE then READ MULTIPLE of the same sectors: each sector
      read back is the one written. */
  lemma WrittenSectorsReadBack(disk: seq<int>, lba: nat, buf: seq<int>, n: nat, j: nat)
    requires |buf| == n * SECTOR_SIZE && j < n
    ensures SectorData(StoreAt(disk, lba * SECTOR_SIZE, buf), lba + j) ==
              buf[j * SECTOR_SIZE .. j * SECTOR_SIZE + SECTOR_SIZE]
  {
    var off := lba * SECTOR_SIZE;
    var r := StoreAt(disk, off, buf);
    StoreReadBack(disk, off, buf);
    assert (lba + j) * SECTOR_SIZE == off + j * SECTOR_SIZE;
    assert j * SECTOR_SIZE + SECTOR_SIZE <= |buf|;
    assert r[off + j * SECTOR_SIZE .. off + j * SECTOR_SIZE + SECTOR_SIZE]
        == r[off..off + |buf|][j * SECTOR_SIZE .. j * SECTOR_SIZE + SECTOR_SIZE];
  }

  /** The adapter's state apart from the images. */
  datatype IdeState = IdeState(status: nat, error: nat, drv: int, buffer: seq<int>, offset: nat,
                               targetLba: int, targetDrive: int, registers: seq<nat>)
  {
    ghost predicate Valid(drives: nat) {
      |registers| == 8 && offset <= |buffer| &&
      (targetDrive == NO_TARGET || 0 <= targetDrive < drives)
    }
  }

  const INITIAL: IdeState := IdeState(0, 0, 0, Zeros(SECTOR_SIZE), 0, 0, NO_TARGET, [0, 0, 0, 0, 0, 0, 0, 0])

  /** The drive the drive/head register selects (bit 4). */
  function DriveOf(s: IdeState): (d: int)
    requires |s.registers| == 8
    ensures d == 0 || d == 1
  {
    if HasBit(s.registers[6], 16) then 1 else 0
  }

  /** ABRT in the error register and ERR in the status register. */
  function Aborted(s: IdeState): (r: IdeState)
    ensures r == s.(error := BitOr(s.error, ABRT), status := BitOr(s.status, ERR))
  {
    s.(error := BitOr(s.error, ABRT), status := BitOr(s.status, ERR))
  }

  /** A command addressed to drive 1 of a one-drive adapter is refused. */
  predicate Refused(s: IdeState, drives: nat)
    requires |s.registers| == 8
  {
    DriveOf(s) == 1 && drives == 1
  }

  /** IDENTIFY DRIVE: the block goes into a fresh buffer, read from the
      start. */
  function Identify(s: IdeState, serials: seq<seq<int>>): (r: IdeState)
    requires s.Valid(|serials|) && |serials| >= 1 && forall d :: 0 <= d < |serials| ==> AllBytes(serials[d])
    ensures r.Valid(|serials|)
    ensures Refused(s, |serials|) ==> r == Aborted(s)
    ensures !Refused(s, |serials|) ==>
              r == s.(buffer := IdentifyBlock(serials[DriveOf(s)]), offset := 0)
  {
    if Refused(s, |serials|) then Aborted(s)
    else s.(buffer := IdentifyBlock(serials[DriveOf(s)]), offset := 0)
  }

  /** The task-file address: cylinder from registers 4 (low) and 5 (high),
      head from the low nibble of register 6, sector from register 3. */
  function StartChs(s: IdeState): Chs
    requires |s.registers| == 8
  {
    Chs(BitOr(s.registers[4], s.registers[5] * 256), BitAnd(s.registers[6], 15), s.registers[3])
  }

  /** The sector count register, 0 meaning 256. */
  function SectorCount(s: IdeState): (n: nat)
    requires |s.registers| == 8
    ensures n >= 1
  {
    if s.registers[2] == 0 then 256 else s.registers[2]
  }

  /** The task-file registers after k steps of the command loop: each step
      writes back the new sector, cylinder low and high bytes, and the head
      into the low bits of register 6. */
  function RegsAfter(regs: seq<nat>, p: Chs, k: nat): (r: seq<nat>)
    requires |regs| == 8
    ensures |r| == 8
    ensures k > 0 ==> r[3] == ChsAfter(p, k).sector && r[4] + 256 * r[5] == ChsAfter(p, k).cyl
    ensures forall i :: 0 <= i < 8 && !(3 <= i <= 6) ==> r[i] == regs[i]
    decreases k
  {
    if k == 0 then regs
    else
      RegsStep(RegsAfter(regs, p, k - 1), ChsAfter(p, k))
  }

  /** One step's write-back: the new sector, the cylinder's low and high
      bytes, and the head into the low bits of register 6. */
  function RegsStep(regs: seq<nat>, q: Chs): (r: seq<nat>)
    requires |regs| == 8
    ensures |r| == 8 && r[3] == q.sector && r[4] + 256 * r[5] == q.cyl
    ensures forall i :: 0 <= i < 8 && !(3 <= i <= 6) ==> r[i] == regs[i]
  {
    regs[3 := q.sector][4 := q.cyl % 256][5 := q.cyl / 256][6 := BitOr(BitAnd(regs[6], 0xf0), q.head)]
  }

  /** READ MULTIPLE: the sectors go into a fresh buffer read from the start,
      the registers are left addressing the sector after the last one read,
      and DRDY and DRQ are set. */
  function ReadMultiple(s: IdeState, disks: seq<seq<int>>): (r: IdeState)
    requires s.Valid(|disks|) && |disks| >= 1
    ensures r.Valid(|disks|)
  {
    if Refused(s, |disks|) then Aborted(s)
    else
      var n := SectorCount(s);
      s.(buffer := Filled(disks[DriveOf(s)], StartChs(s), n, n), offset := 0,
         registers := RegsAfter(s.registers, StartChs(s), n),
         status := BitOr(BitOr(s.status, DRDY), DRQ))
  }

  /** After READ MULTIPLE of n sectors the task file addresses the sector
      right after the last one read, so the next command continues there. */
  lemma ReadMultipleAdvancesAddress(s: IdeState, disks: seq<seq<int>>)
    requires s.Valid(|disks|) && |disks| >= 1 && !Refused(s, |disks|)
    requires s.registers[3] <= SECTORS_PER_TRACK
    ensures var r := ReadMultiple(s, disks);
            var q := Chs(r.registers[4] + 256 * r.registers[5], ChsAfter(StartChs(s), SectorCount(s)).head, r.registers[3]);
            Lba(q) == Lba(StartChs(s)) + SectorCount(s)
  {
    ChsAfterLba(StartChs(s), SectorCount(s));
  }

  /** WRITE MULTIPLE: a fresh zeroed buffer of the sector count, and the
      target the full buffer will be stored to. */
  function WriteMultiple(s: IdeState, drives: nat): (r: IdeState)
    requires s.Valid(drives) && drives >= 1
    ensures r.Valid(drives)
  {
    if Refused(s, drives) then Aborted(s)
    else
      s.(buffer := Zeros(SectorCount(s) * SECTOR_SIZE), offset := 0,
         targetLba := Lba(StartChs(s)), targetDrive := DriveOf(s),
         status := BitOr(BitOr(s.status, DRDY), DRQ))
  }

  /** A byte written to the data port: stored while the buffer has room;
      once the buffer is full with a write pending, it goes to the image and
      the pending target is cleared. */
  function DataWrite(s: IdeState, disks: seq<seq<int>>, value: int): (r: (IdeState, seq<seq<int>>))
    requires s.Valid(|disks|)
    ensures r.0.Valid(|disks|) && |r.1| == |disks|
  {
    var s2 := if s.offset < |s.buffer| then s.(buffer := s.buffer[s.offset := value], offset := s.offset + 1) else s;
    if s2.offset == |s2.buffer| && s2.targetDrive != NO_TARGET then
      (s2.(targetDrive := NO_TARGET),
       disks[s2.targetDrive := StoreAt(disks[s2.targetDrive], s2.targetLba * SECTOR_SIZE, s2.buffer)])
    else (s2, disks)
  }

  /** Several data-port writes in order. */
  function DataWrites(s: IdeState, disks: seq<seq<int>>, bs: seq<int>): (r: (IdeState, seq<seq<int>>))
    requires s.Valid(|disks|)
    ensures r.0.Valid(|disks|) && |r.1| == |disks|
    decreases |bs|
  {
    if |bs| == 0 then (s, disks)
    else
      var p := DataWrites(s, disks, bs[..|bs| - 1]);
      DataWrite(p.0, p.1, bs[|bs| - 1])
  }

  /** Before the buffer is full, the bytes written so far fill it from the
      start and nothing reaches the image. */
  lemma {:induction false} DataWritesFill(s: IdeState, disks: seq<seq<int>>, bs: seq<int>)
    requires s.Valid(|disks|) && s.offset == 0 && |bs| < |s.buffer|
    ensures DataWrites(s, disks, bs) == (s.(buffer := bs + s.buffer[|bs|..], offset := |bs|), disks)
    decreases |bs|
  {
    if |bs| == 0 {
      assert bs + s.buffer[0..] == s.buffer;
    } else {
      var k := |bs| - 1;
      DataWritesFill(s, disks, bs[..k]);
      var prev := s.(buffer := bs[..k] + s.buffer[k..], offset := k);
      assert bs[..|bs| - 1] == bs[..k];
      assert (bs[..k] + s.buffer[k..])[k := bs[k]] == bs + s.buffer[|bs|..];
      assert DataWrite(prev, disks, bs[k]).0 == s.(buffer := bs + s.buffer[|bs|..], offset := |bs|);
    }
  }

  /** WRITE MULTIPLE's data phase: once the host has written a full buffer
      of bytes, they are stored at the target sector of the target drive,
      and the pending write is cleared. */
  lemma WriteMultipleStores(s: IdeState, disks: seq<seq<int>>, bs: seq<int>)
    requires s.Valid(|disks|) && s.offset == 0 && |bs| == |s.buffer| > 0 && s.targetDrive != NO_TARGET
    ensures var r := DataWrites(s, disks, bs);
            r.1 == disks[s.targetDrive := StoreAt(disks[s.targetDrive], s.targetLba * SECTOR_SIZE, bs)] &&
            r.0.buffer == bs && r.0.offset == |bs| && r.0.targetDrive == NO_TARGET
  {
    var k := |bs| - 1;
    DataWritesFill(s, disks, bs[..k]);
    assert bs[..k] + [bs[k]] == bs;
    assert (bs[..k] + s.buffer[k..])[k := bs[k]] == bs;
  }

  /** The command register. */
  function Command(s: IdeState, disks: seq<seq<int>>, serials: seq<seq<int>>, value: int): (r: IdeState)
    requires s.Valid(|disks|) && |disks| >= 1 && |serials| == |disks|
    requires forall d :: 0 <= d < |serials| ==> AllBytes(serials[d])
    requires IsByte(value)
    ensures r.Valid(|disks|)
  {
    if value == 0xef || value == 0x91 then Aborted(s)
    else if value == 0xec then Identify(s, serials)
    else if value / 16 == 7 then s.(status := BitOr(s.status, DSC))
    else if value == 0xc4 then ReadMultiple(s, disks)
    else if value == 0xc5 then WriteMultiple(s, |disks|)
    else s
  }

  /** IO_Write: the value lands in the port's register, then the data port,
      the drive/head register and the command register act on it. */
  function Write(s: IdeState, disks: seq<seq<int>>, serials: seq<seq<int>>, port: int, value: int): (r: (IdeState, seq<seq<int>>))
    requires s.Valid(|disks|) && |disks| >= 1 && |serials| == |disks|
    requires forall d :: 0 <= d < |serials| ==> AllBytes(serials[d])
    requires 0x300 <= port < 0x310 && IsByte(value)
    ensures r.0.Valid(|disks|) && |r.1| == |disks|
    ensures r.0.registers[(port - 0x300) / 2] == value || port == 0x30e
    ensures port != 0x300 ==> r.1 == disks
  {
    var s1 := s.(registers := s.registers[(port - 0x300) / 2 := value]);
    if port == 0x300 then DataWrite(s1, disks, value)
    else if port == 0x30c then (s1.(drv := if HasBit(value, 16) then 1 else 0), disks)
    else if port == 0x30e then (Command(s1, disks, serials, value), disks)
    else (s1, disks)
  }

  /** IO_Read: the data port streams the buffer (0xee once it is used up),
      the error port returns and clears the error register, the status
      port returns the status (with DRQ while data remains) and resets it
      to DRDY, and any other port returns its register. */
  function Read(s: IdeState, port: int): (r: (IdeState, int))
    requires |s.registers| == 8 && s.offset <= |s.buffer|
    requires 0x300 <= port < 0x310
    ensures port == 0x300 && s.offset < |s.buffer| ==> r == (s.(offset := s.offset + 1), s.buffer[s.offset])
    ensures port == 0x300 && s.offset >= |s.buffer| ==> r == (s, 0xee)
    ensures port == 0x302 ==> r == (s.(error := 0), s.error)
    ensures port == 0x30e ==>
              r.0 == s.(status := DRDY) &&
              r.1 == (if s.offset < |s.buffer| then BitOr(s.status, DRQ) else s.status)
    ensures port !in {0x300, 0x302, 0x30e} ==> r == (s, s.registers[(port - 0x300) / 2])
  {
    if port == 0x300 then
      if s.offset < |s.buffer| then (s.(offset := s.offset + 1), s.buffer[s.offset]) else (s, 0xee)
    else if port == 0x302 then (s.(error := 0), s.error)
    else if port == 0x30e then
      (s.(status := DRDY), if s.offset < |s.buffer| then BitOr(s.status, DRQ) else s.status)
    else (s, s.registers[(port - 0x300) / 2])
  }

  /** `n` successive reads of the data port: the state left and the bytes. */
  function DataReads(s: IdeState, n: nat): (r: (IdeState, seq<int>))
    requires |s.registers| == 8 && s.offset <= |s.buffer|
    ensures |r.1| == n
    decreases n
  {
    if n == 0 then (s, [])
    else
      var first := Read(s, 0x300);
      var rest := DataReads(first.0, n - 1);
      (rest.0, [first.1] + rest.1)
  }

  /** The data port hands out the buffer byte by byte from the current
      offset. */
  lemma {:induction false} DataPortStreams(s: IdeState, n: nat)
    requires |s.registers| == 8 && s.offset + n <= |s.buffer|
    ensures DataReads(s, n).1 == s.buffer[s.offset .. s.offset + n]
    ensures DataReads(s, n).0 == s.(offset := s.offset + n)
    decreases n
  {
    if n > 0 {
      var first := Read(s, 0x300);
      DataPortStreams(first.0, n - 1);
      assert s.buffer[s.offset .. s.offset + n] == [s.buffer[s.offset]] + s.buffer[s.offset + 1 .. s.offset + n];
    }
  }

  /** After IDENTIFY DRIVE the host reads the 512-byte block through the
      data port, and pairing the bytes low-first gives back the 256 words. */
  lemma IdentifyThenRead(s: IdeState, serials: seq<seq<int>>)
    requires s.Valid(|serials|) && |serials| >= 1 && forall d :: 0 <= d < |serials| ==> AllBytes(serials[d])
    requires !Refused(s, |serials|)
    ensures var bytes := DataReads(Identify(s, serials), 512).1;
            var words := IdentifyWords(serials[DriveOf(s)]);
            bytes == IdentifyBlock(serials[DriveOf(s)]) &&
            forall w :: 0 <= w < 256 ==> bytes[2 * w] + 256 * bytes[2 * w + 1] == words[w]
  {
    DataPortStreams(Identify(s, serials), 512);
    WordsToBytesRoundTrip(IdentifyWords(serials[DriveOf(s)]));
  }

  /** READ MULTIPLE of sectors inside the image, then reading the data port
      as many times as the buffer is long, yields exactly those sectors of
      the image, in order. */
  lemma ReadMultipleDelivers(s: IdeState, disks: seq<seq<int>>)
    requires s.Valid(|disks|) && |disks| >= 1 && !Refused(s, |disks|)
    requires s.registers[3] <= SECTORS_PER_TRACK && Lba(StartChs(s)) >= 0
    requires (Lba(StartChs(s)) + SectorCount(s)) * SECTOR_SIZE <= |disks[DriveOf(s)]|
    ensures var n := SectorCount(s);
            var a := Lba(StartChs(s)) * SECTOR_SIZE;
            DataReads(ReadMultiple(s, disks), n * SECTOR_SIZE).1 == disks[DriveOf(s)][a .. a + n * SECTOR_SIZE]
  {
    var n := SectorCount(s);
    FilledFromDisk(disks[DriveOf(s)], StartChs(s), n, n);
    assert Zeros(0) == [];
    DataPortStreams(ReadMultiple(s, disks), n * SECTOR_SIZE);
  }

  /** The adapter: its state, the drive images and the drives' serial
      numbers. */
  class XTIDE {
    var st: IdeState
    var disks: seq<seq<int>>
    const serials: seq<seq<int>>

    ghost predicate Valid()
      reads this
    {
      st.Valid(|disks|) && |disks| >= 1 && |serials| == |disks| &&
      forall d :: 0 <= d < |serials| ==> AllBytes(serials[d])
    }

    constructor (disks: seq<seq<int>>, serials: seq<seq<int>>)
      requires |disks| >= 1 && |serials| == |disks| && forall d :: 0 <= d < |serials| ==> AllBytes(serials[d])
      ensures Valid() && st == INITIAL && this.disks == disks && this.serials == serials
    {
      st := INITIAL;
      this.disks := disks;
      this.serials := serials;
    }

    function GetIRQNumber(): (r: int)
      ensures r < 0
    { -1 }

    function RegisterDevice(): (ports: seq<int>)
      ensures forall p :: p in ports <==> 0x300 <= p < 0x310
    {
      [0x300, 0x301, 0x302, 0x303, 0x304, 0x305, 0x306, 0x307,
       0x308, 0x309, 0x30a, 0x30b, 0x30c, 0x30d, 0x30e, 0x30f]
    }

    function Ticks(): (r: bool)
      ensures !r
    { false }

    method PushSectorBufferWord(v: int)
      requires Valid() && st.offset + 2 <= |st.buffer|
      modifies this
      ensures Valid() && disks == old(disks)
      ensures st == old(st).(buffer := old(st).buffer[old(st).offset := v % 256][old(st).offset + 1 := v / 256],
                             offset := old(st).offset + 2)
    {
      st := st.(buffer := st.buffer[st.offset := v % 256], offset := st.offset + 1);
      st := st.(buffer := st.buffer[st.offset := v / 256], offset := st.offset + 1);
    }

    /** The pushes of IDENTIFY DRIVE into a fresh buffer that the words fill
        exactly. */
    method PushWords(ws: seq<int>)
      requires Valid() && st.offset == 0 && |st.buffer| == 2 * |ws|
      modifies this
      ensures Valid() && disks == old(disks)
      ensures st == old(st).(buffer := WordsToBytes(ws), offset := 2 * |ws|)
    {
      var i := 0;
      while i < |ws|
        invariant 0 <= i <= |ws| && Valid() && disks == old(disks)
        invariant st == old(st).(buffer := WordsToBytes(ws[..i]) + old(st).buffer[2 * i..], offset := 2 * i)
      {
        PushStep(ws, i, old(st).buffer);
        PushSectorBufferWord(ws[i]);
        i := i + 1;
      }
      assert ws[..|ws|] == ws;
    }

    method CMDIdentifyDrive()
      requires Valid()
      modifies this
      ensures Valid() && disks == old(disks) && st == Identify(old(st), serials)
    {
      var drive := DriveOf(st);
      if drive == 1 && |disks| == 1 {
        st := st.(error := BitOr(st.error, ABRT));
        st := st.(status := BitOr(st.status, ERR));
        return;
      }
      st := st.(buffer := Zeros(SECTOR_SIZE), offset := 0);
      PushWords(IdentifyWords(serials[drive]));
      st := st.(offset := 0);
    }

    method CMDReadMultiple()
      requires Valid()
      modifies this
      ensures Valid() && disks == old(disks) && st == ReadMultiple(old(st), disks)
    {
      var count := SectorCount(st);
      var p0 := StartChs(st);
      var drive := DriveOf(st);
      if drive == 1 && |disks| == 1 {
        st := st.(error := BitOr(st.error, ABRT));
        st := st.(status := BitOr(st.status, ERR));
        return;
      }
      var buf, regs := ReadSectors(disks[drive], p0, count, st.registers);
      st := st.(buffer := buf, offset := 0, registers := regs);
      st := st.(status := BitOr(st.status, DRDY));
      st := st.(status := BitOr(st.status, DRQ));
    }

    /** The sector loop of READ MULTIPLE: each sector of the walk is read
        into its slot of the buffer and the task file follows the walk. */
    method ReadSectors(disk: seq<int>, p0: Chs, count: nat, regs0: seq<nat>) returns (buf: seq<int>, regs: seq<nat>)
      requires |regs0| == 8
      ensures buf == Filled(disk, p0, count, count) && regs == RegsAfter(regs0, p0, count)
    {
      buf := Zeros(count * SECTOR_SIZE);
      var p := p0;
      regs := regs0;
      var nr := 0;
      while nr < count
        invariant 0 <= nr <= count
        invariant p == ChsAfter(p0, nr)
        invariant buf == Filled(disk, p0, count, nr)
        invariant regs == RegsAfter(regs0, p0, nr)
      {
        SectorLoopStep(disk, p0, count, nr, regs0);
        buf := Splice(buf, nr, SectorData(disk, Lba(p)));
        p := NextChs(p);
        regs := RegsStep(regs, p);
        nr := nr + 1;
      }
    }

    method CMDWriteMultiple()
      requires Valid()
      modifies this
      ensures Valid() && disks == old(disks) && st == WriteMultiple(old(st), |disks|)
    {
      var count := SectorCount(st);
      var drive := DriveOf(st);
      if drive == 1 && |disks| == 1 {
        st := st.(error := BitOr(st.error, ABRT));
        st := st.(status := BitOr(st.status, ERR));
        return;
      }
      var lba := Lba(StartChs(st));
      st := st.(buffer := Zeros(count * SECTOR_SIZE), offset := 0, targetLba := lba, targetDrive := drive);
      st := st.(status := BitOr(st.status, DRDY));
      st := st.(status := BitOr(st.status, DRQ));
    }

    /** The buffer goes to the target drive's image at the target sector. */
    method StoreSectorBuffer()
      requires Valid() && st.targetDrive != NO_TARGET
      modifies this
      ensures Valid() && st == old(st)
      ensures disks == old(disks)[st.targetDrive := StoreAt(old(disks)[st.targetDrive], st.targetLba * SECTOR_SIZE, st.buffer)]
    {
      disks := disks[st.targetDrive := StoreAt(disks[st.targetDrive], st.targetLba * SECTOR_SIZE, st.buffer)];
    }

    method IO_Read(port: int) returns (v: int)
      requires Valid() && 0x300 <= port < 0x310
      modifies this
      ensures Valid() && disks == old(disks) && (st, v) == Read(old(st), port)
    {
      var register := (port - 0x300) / 2;
      v := 0xee;
      if port == 0x300 {
        if st.offset < |st.buffer| {
          v := st.buffer[st.offset];
          st := st.(offset := st.offset + 1);
        }
      } else if port == 0x302 {
        v := st.error;
        st := st.(error := 0);
      } else if port == 0x30e {
        if st.offset < |st.buffer| {
          st := st.(status := BitOr(st.status, DRQ));
        }
        v := st.status;
        st := st.(status := DRDY);
      } else {
        v := st.registers[register];
      }
    }

    method IO_Write(port: int, value: int) returns (r: bool)
      requires Valid() && 0x300 <= port < 0x310 && IsByte(value)
      modifies this
      ensures Valid() && !r
      ensures (st, disks) == Write(old(st), old(disks), serials, port, value)
    {
      var register := (port - 0x300) / 2;
      st := st.(registers := st.registers[register := value]);
      if port == 0x300 {
        if st.offset < |st.buffer| {
          st := st.(buffer := st.buffer[st.offset := value], offset := st.offset + 1);
        }
        if st.offset == |st.buffer| && st.targetDrive != NO_TARGET {
          StoreSectorBuffer();
          st := st.(targetDrive := NO_TARGET);
        }
      } else if port == 0x30c {
        st := st.(drv := if HasBit(value, 16) then 1 else 0);
      } else if port == 0x30e {
        if value == 0xef {
          st := st.(error := BitOr(st.error, ABRT), status := BitOr(st.status, ERR));
        } else if value == 0xec {
          CMDIdentifyDrive();
        } else if value == 0x91 {
          st := st.(error := BitOr(st.error, ABRT), status := BitOr(st.status, ERR));
        } else if value / 16 == 7 {
          st := st.(status := BitOr(st.status, DSC));
        } else if value == 0xc6 {
        } else if value == 0xc4 {
          CMDReadMultiple();
        } else if value == 0xc5 {
          CMDWriteMultiple();
        }
      }
      r := false;
    }
  }

  /** One pass of READ MULTIPLE's sector loop, unfolded. */
  lemma SectorLoopStep(disk: seq<int>, p0: Chs, count: nat, nr: nat, regs0: seq<nat>)
    requires nr < count && |regs0| == 8
    ensures var p := ChsAfter(p0, nr);
            var q := NextChs(p);
            var regs := RegsAfter(regs0, p0, nr);
            ChsAfter(p0, nr + 1) == q &&
            Filled(disk, p0, count, nr + 1) == Splice(Filled(disk, p0, count, nr), nr, SectorData(disk, Lba(p))) &&
            RegsAfter(regs0, p0, nr + 1) == RegsStep(regs, q)
  {
  }

  /** One word pushed after i words: the bytes so far grow by the word's two
      bytes and the rest of the buffer loses its first two. */
  lemma PushStep(ws: seq<int>, i: nat, rest: seq<int>)
    requires i < |ws| && |rest| == 2 * |ws|
    ensures var b := WordsToBytes(ws[..i]) + rest[2 * i..];
            b[2 * i := ws[i] % 256][2 * i + 1 := ws[i] / 256] == WordsToBytes(ws[..i + 1]) + rest[2 * (i + 1)..]
  {
    assert ws[..i + 1][..i] == ws[..i];
  }
}
