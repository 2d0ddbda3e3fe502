/** The processor's view of memory: a map from linear address (segment * 16 +
    offset, cut to the 24 bits of MemMask) to byte.  Addresses never written read
    0xFF, the fill value of fresh RAM and of unmapped bus reads.  A word is stored
    little-endian at two consecutive linear addresses. */
module CpuMemory {
  import opened Bits

  type Mem = map<int, int>

  /** MemMask is 0x00ffffff. */
  const MEM_SIZE: int := 0x1000000

  function Linear(seg: int, off: int): (r: int)
    ensures 0 <= r < MEM_SIZE
  { (seg * 16 + off) % MEM_SIZE }

  ghost predicate ValidMem(m: Mem) {
    forall a :: a in m ==> IsByte(m[a])
  }

  function ReadByte(m: Mem, a: int): (r: int)
    requires ValidMem(m)
    ensures IsByte(r)
    ensures a !in m ==> r == 0xFF
  { if a in m then m[a] else 0xFF }

  function ReadMemByte(m: Mem, seg: int, off: int): (r: int)
    requires ValidMem(m)
    ensures IsByte(r)
  { ReadByte(m, Linear(seg, off)) }

  function ReadMemWord(m: Mem, seg: int, off: int): (r: int)
    requires ValidMem(m)
    ensures IsWord(r)
    ensures r % 0x100 == ReadMemByte(m, seg, off) && r / 0x100 == ReadMemByte(m, seg, off + 1)
  { ReadMemByte(m, seg, off) + 0x100 * ReadMemByte(m, seg, off + 1) }

  function WriteMemByte(m: Mem, seg: int, off: int, v: int): (r: Mem)
    requires ValidMem(m) && IsByte(v)
    ensures ValidMem(r)
    ensures ReadMemByte(r, seg, off) == v
    ensures forall a :: a != Linear(seg, off) ==> ReadByte(r, a) == ReadByte(m, a)
  { m[Linear(seg, off) := v] }

  function WriteMemWord(m: Mem, seg: int, off: int, v: int): (r: Mem)
    requires ValidMem(m) && IsWord(v)
    ensures ValidMem(r)
  { WriteMemByte(WriteMemByte(m, seg, off, v % 0x100), seg, off + 1, v / 0x100) }

  lemma AdjacentDistinct(seg: int, off: int)
    ensures Linear(seg, off + 1) != Linear(seg, off)
  {
    var x := seg * 16 + off;
    assert seg * 16 + (off + 1) == x + 1;
  }

  /** A word read back from where it was written returns the word. */
  lemma {:induction false} WordRoundTrip(m: Mem, seg: int, off: int, v: int)
    requires ValidMem(m) && IsWord(v)
    ensures ReadMemWord(WriteMemWord(m, seg, off, v), seg, off) == v
  {
    AdjacentDistinct(seg, off);
    var m1 := WriteMemByte(m, seg, off, v % 0x100);
    var m2 := WriteMemByte(m1, seg, off + 1, v / 0x100);
    assert ReadMemByte(m2, seg, off) == v % 0x100;
    assert ReadMemByte(m2, seg, off + 1) == v / 0x100;
  }

  /** A word write changes only its own two bytes. */
  lemma {:induction false} WordFrame(m: Mem, seg: int, off: int, v: int, a: int)
    requires ValidMem(m) && IsWord(v)
    requires a != Linear(seg, off) && a != Linear(seg, off + 1)
    ensures ReadByte(WriteMemWord(m, seg, off, v), a) == ReadByte(m, a)
  {
  }

  /** Two word accesses whose linear byte addresses are disjoint do not interfere. */
  lemma {:induction false} WordReadOther(m: Mem, seg: int, off: int, v: int, seg2: int, off2: int)
    requires ValidMem(m) && IsWord(v)
    requires Linear(seg2, off2) != Linear(seg, off) && Linear(seg2, off2) != Linear(seg, off + 1)
    requires Linear(seg2, off2 + 1) != Linear(seg, off) && Linear(seg2, off2 + 1) != Linear(seg, off + 1)
    ensures ReadMemWord(WriteMemWord(m, seg, off, v), seg2, off2) == ReadMemWord(m, seg2, off2)
  {
    WordFrame(m, seg, off, v, Linear(seg2, off2));
    WordFrame(m, seg, off, v, Linear(seg2, off2 + 1));
  }
}
