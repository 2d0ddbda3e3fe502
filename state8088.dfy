/** The 8088 register and control-state record (state8088.py).
    The 16-bit registers AX..DX have no storage of their own: they are composed
    from their 8-bit halves on every read.  FLAGS is kept bit by bit; GetFlags / SetFlags
    convert to and from the 16-bit word. */
module State8088 {
  import opened Bits

  /** REP-prefix sub-state. */
  datatype RepMode = NotSet | REPE_Z | REPNZ | REP

  // Bit positions of the named flags.
  const FLAG_C: nat := 0
  const FLAG_P: nat := 2
  const FLAG_A: nat := 4
  const FLAG_Z: nat := 6
  const FLAG_S: nat := 7
  const FLAG_T: nat := 8
  const FLAG_I: nat := 9
  const FLAG_D: nat := 10
  const FLAG_O: nat := 11

  /** The FLAGS register, one boolean per bit, bit 0 first. */
  predicate IsFlags(f: seq<bool>) { |f| == 16 }

  /** The numeric value of a bit sequence (bit 0 first): what GetFlags returns. */
  function FlagsWord(f: seq<bool>): (r: nat)
    ensures r < Pow2(|f|)
    decreases |f|
  {
    if |f| == 0 then 0 else (if f[0] then 1 else 0) + 2 * FlagsWord(f[1..])
  }

  /** The low `n` bits of `w`, bit 0 first: what SetFlags stores. */
  function WordFlags(w: nat, n: nat): (r: seq<bool>)
    ensures |r| == n
    ensures forall i :: 0 <= i < n ==> r[i] == BitSet(w, i)
    decreases n
  {
    if n == 0 then []
    else
      [w % 2 == 1] + WordFlags(w / 2, n - 1)
  }

  /** The 16-bit FLAGS word of a flags value. */
  function FlagsValue(f: seq<bool>): (r: int)
    requires IsFlags(f)
    ensures IsWord(r) && r == FlagsWord(f)
  {
    Pow2Values();
    FlagsWord(f)
  }

  lemma {:induction false} WordFlagsRoundTrip(f: seq<bool>)
    ensures WordFlags(FlagsWord(f), |f|) == f
    decreases |f|
  {
    if |f| > 0 {
      var w := FlagsWord(f);
      assert w / 2 == FlagsWord(f[1..]);
      WordFlagsRoundTrip(f[1..]);
    }
  }

  lemma {:induction false} FlagsWordRoundTrip(w: nat, n: nat)
    requires w < Pow2(n)
    ensures FlagsWord(WordFlags(w, n)) == w
    decreases n
  {
    if n > 0 {
      var f := WordFlags(w, n);
      assert f[1..] == WordFlags(w / 2, n - 1);
      FlagsWordRoundTrip(w / 2, n - 1);
    }
  }

  /** FixFlags on a flags value: bit 1 and bits 12-15 read as 1, bits 3 and 5 as 0. */
  function Fixed(f: seq<bool>): (r: seq<bool>)
    requires IsFlags(f)
    ensures IsFlags(r)
    ensures r[1] && !r[3] && !r[5]
    ensures forall j :: 12 <= j < 16 ==> r[j]
    ensures forall j :: 0 <= j < 12 && j != 1 && j != 3 && j != 5 ==> r[j] == f[j]
  {
    f[1 := true][3 := false][5 := false][12 := true][13 := true][14 := true][15 := true]
  }

  /** SetZSPFlags on a flags value (v >= 0). */
  function WithZSP(f: seq<bool>, v: nat): (r: seq<bool>)
    requires IsFlags(f)
    ensures IsFlags(r)
    ensures r[FLAG_Z] == (v == 0)
    ensures r[FLAG_S] == HasBit(v, 0x80)
    ensures r[FLAG_P] == EvenParity(v)
    ensures forall j :: 0 <= j < 16 && j != FLAG_Z && j != FLAG_S && j != FLAG_P ==> r[j] == f[j]
  {
    f[FLAG_Z := v == 0][FLAG_S := (v / 0x80) % 2 == 1][FLAG_P := EvenParity(v)]
  }

  /** The eight-character flag summary o I T s z a p c ('-' where clear). */
  function FlagsString(f: seq<bool>): (r: string)
    requires IsFlags(f)
    ensures |r| == 8
    ensures forall k :: 0 <= k < 8 ==>
      r[k] == (if f[[FLAG_O, FLAG_I, FLAG_T, FLAG_S, FLAG_Z, FLAG_A, FLAG_P, FLAG_C][k]]
               then "oITszapc"[k] else '-')
  {
    [ if f[FLAG_O] then 'o' else '-',
      if f[FLAG_I] then 'I' else '-',
      if f[FLAG_T] then 'T' else '-',
      if f[FLAG_S] then 's' else '-',
      if f[FLAG_Z] then 'z' else '-',
      if f[FLAG_A] then 'a' else '-',
      if f[FLAG_P] then 'p' else '-',
      if f[FLAG_C] then 'c' else '-' ]
  }

  /** A 16-bit register read: `(high << 8) | low`. */
  function Compose(high: int, low: int): (r: int)
    requires IsByte(high) && IsByte(low)
    ensures IsWord(r)
    ensures r / 0x100 == high && r % 0x100 == low
  { high * 0x100 + low }

  /** A 16-bit register write splits the value into `v >> 8` and `v & 255`. */
  function High(v: int): (r: int)
    requires IsWord(v)
    ensures IsByte(r)
  { v / 0x100 }

  lemma {:induction false} ComposeSplit(v: int)
    requires IsWord(v)
    ensures Compose(High(v), Low8(v)) == v
  {
    assert v == (v / 0x100) * 0x100 + v % 0x100;
  }

  /** The 8-bit halves of AX..DX and the 16-bit SI, DI, BP, SP. */
  datatype GpRegs = GpRegs(
    ah: int, al: int, bh: int, bl: int, ch: int, cl: int, dh: int, dl: int,
    si: int, di: int, bp: int, sp: int)
  {
    ghost predicate Valid() {
      IsByte(ah) && IsByte(al) && IsByte(bh) && IsByte(bl) &&
      IsByte(ch) && IsByte(cl) && IsByte(dh) && IsByte(dl) &&
      IsWord(si) && IsWord(di) && IsWord(bp) && IsWord(sp)
    }
    function AX(): int requires Valid() { Compose(ah, al) }
    function BX(): int requires Valid() { Compose(bh, bl) }
    function CX(): int requires Valid() { Compose(ch, cl) }
    function DX(): int requires Valid() { Compose(dh, dl) }
  }

  /** The segment registers and the segment-override prefix state. */
  datatype Segs = Segs(cs: int, ds: int, es: int, ss: int, override: int, overrideSet: bool)
  {
    ghost predicate Valid() {
      IsWord(cs) && IsWord(ds) && IsWord(es) && IsWord(ss) && IsWord(override)
    }
  }

  /** The REP-prefix state: active, "CX was 0 at the prefix", the mode, the
      address of the prefix (where a running REP resumes) and the opcode after it. */
  datatype RepState = RepState(active: bool, doNothing: bool, mode: RepMode, addr: int, opcode: int)

  /** Every field of the state object, grouped: general registers, IP, segments,
      FLAGS, REP state, and the HLT / interrupt-inhibit / clock bookkeeping. */
  datatype Regs = Regs(
    gp: GpRegs, ip: int, seg: Segs, flags: seq<bool>, rep: RepState,
    inHlt: bool, inhibitInterrupts: bool, clock: int, crashCounter: int)
  {
    ghost predicate Valid() {
      gp.Valid() && IsWord(ip) && seg.Valid() && IsFlags(flags) && IsWord(rep.addr) &&
      crashCounter >= 0
    }

    /** The same registers c cycles later. */
    function Ticked(c: int): Regs {
      this.(clock := clock + c)
    }
  }

  /** Every register, flag and control field at zero / false / NotSet. */
  function Zeroed(): (r: Regs)
    ensures r.Valid()
  {
    Regs(GpRegs(0, 0, 0, 0, 0, 0, 0, 0, 0, 0, 0, 0), 0, Segs(0, 0, 0, 0, 0, false),
         seq(16, _ => false), RepState(false, false, NotSet, 0, 0), false, false, 0, 0)
  }

  /** The state object.  Its fields are held together in one record-valued field,
      `regs`, which the setters replace in place; the accessors read it. */
  class State8088 {
    var regs: Regs

    ghost predicate Valid()
      reads this
    {
      regs.Valid()
    }

    /** Every register, flag and control field starts at zero / false / NotSet. */
    constructor ()
      ensures Valid()
      ensures regs == Zeroed()
    {
      regs := Zeroed();
    }

    function GetAX(): (r: int)
      reads this
      requires Valid()
      ensures IsWord(r) && r / 0x100 == regs.gp.ah && r % 0x100 == regs.gp.al
    { Compose(regs.gp.ah, regs.gp.al) }

    function GetBX(): (r: int)
      reads this
      requires Valid()
      ensures IsWord(r) && r / 0x100 == regs.gp.bh && r % 0x100 == regs.gp.bl
    { Compose(regs.gp.bh, regs.gp.bl) }

    function GetCX(): (r: int)
      reads this
      requires Valid()
      ensures IsWord(r) && r / 0x100 == regs.gp.ch && r % 0x100 == regs.gp.cl
    { Compose(regs.gp.ch, regs.gp.cl) }

    function GetDX(): (r: int)
      reads this
      requires Valid()
      ensures IsWord(r) && r / 0x100 == regs.gp.dh && r % 0x100 == regs.gp.dl
    { Compose(regs.gp.dh, regs.gp.dl) }

    method SetAX(v: int)
      requires Valid() && IsWord(v)
      modifies this
      ensures Valid() && regs == old(regs).(gp := old(regs.gp).(ah := High(v), al := Low8(v))) && GetAX() == v
    {
      regs := regs.(gp := regs.gp.(ah := v / 0x100, al := v % 0x100));
      ComposeSplit(v);
    }

    method SetBX(v: int)
      requires Valid() && IsWord(v)
      modifies this
      ensures Valid() && regs == old(regs).(gp := old(regs.gp).(bh := High(v), bl := Low8(v))) && GetBX() == v
    {
      regs := regs.(gp := regs.gp.(bh := v / 0x100, bl := v % 0x100));
      ComposeSplit(v);
    }

    method SetCX(v: int)
      requires Valid() && IsWord(v)
      modifies this
      ensures Valid() && regs == old(regs).(gp := old(regs.gp).(ch := High(v), cl := Low8(v))) && GetCX() == v
    {
      regs := regs.(gp := regs.gp.(ch := v / 0x100, cl := v % 0x100));
      ComposeSplit(v);
    }

    method SetDX(v: int)
      requires Valid() && IsWord(v)
      modifies this
      ensures Valid() && regs == old(regs).(gp := old(regs.gp).(dh := High(v), dl := Low8(v))) && GetDX() == v
    {
      regs := regs.(gp := regs.gp.(dh := v / 0x100, dl := v % 0x100));
      ComposeSplit(v);
    }

    function GetFlag(bit: nat): bool
      reads this
      requires Valid() && bit < 16
    { regs.flags[bit] }

    method SetFlag(bit: nat, state: bool)
      requires Valid() && bit < 16
      modifies this
      ensures Valid() && regs == old(regs).(flags := old(regs.flags)[bit := state])
    {
      regs := regs.(flags := regs.flags[bit := state]);
    }

    method SetFlagC(state: bool) requires Valid() modifies this ensures Valid() && regs == old(regs).(flags := old(regs.flags)[FLAG_C := state]) { SetFlag(FLAG_C, state); }
    method SetFlagA(state: bool) requires Valid() modifies this ensures Valid() && regs == old(regs).(flags := old(regs.flags)[FLAG_A := state]) { SetFlag(FLAG_A, state); }
    method SetFlagZ(state: bool) requires Valid() modifies this ensures Valid() && regs == old(regs).(flags := old(regs.flags)[FLAG_Z := state]) { SetFlag(FLAG_Z, state); }
    method SetFlagS(state: bool) requires Valid() modifies this ensures Valid() && regs == old(regs).(flags := old(regs.flags)[FLAG_S := state]) { SetFlag(FLAG_S, state); }
    method SetFlagT(state: bool) requires Valid() modifies this ensures Valid() && regs == old(regs).(flags := old(regs.flags)[FLAG_T := state]) { SetFlag(FLAG_T, state); }
    method SetFlagI(state: bool) requires Valid() modifies this ensures Valid() && regs == old(regs).(flags := old(regs.flags)[FLAG_I := state]) { SetFlag(FLAG_I, state); }
    method SetFlagD(state: bool) requires Valid() modifies this ensures Valid() && regs == old(regs).(flags := old(regs.flags)[FLAG_D := state]) { SetFlag(FLAG_D, state); }
    method SetFlagO(state: bool) requires Valid() modifies this ensures Valid() && regs == old(regs).(flags := old(regs.flags)[FLAG_O := state]) { SetFlag(FLAG_O, state); }

    /** GetFlags: the 16-bit FLAGS word. */
    function GetFlags(): (r: int)
      reads this
      requires Valid()
      ensures IsWord(r)
    {
      Pow2Values();
      FlagsWord(regs.flags)
    }

    /** SetFlags: store a raw 16-bit FLAGS word (callers follow with FixFlags). */
    method SetFlags(v: int)
      requires Valid() && IsWord(v)
      modifies this
      ensures Valid() && regs == old(regs).(flags := WordFlags(v, 16)) && GetFlags() == v
    {
      regs := regs.(flags := WordFlags(v, 16));
      Pow2Values();
      FlagsWordRoundTrip(v, 16);
    }

    /** FixFlags, run after every raw write of the whole flags word. */
    method FixFlags()
      requires Valid()
      modifies this
      ensures Valid() && regs == old(regs).(flags := Fixed(old(regs.flags)))
    {
      var f := regs.flags[1 := true][3 := false][5 := false];
      f := f[12 := true][13 := true][14 := true][15 := true];
      regs := regs.(flags := f);
    }

    /** SetFlagP: counts set bits by repeatedly clearing the lowest one.  The loop
        only ends for v >= 0 (see ParityLoopNeverEnds for negative inputs). */
    method SetFlagP(v: int)
      requires Valid() && v >= 0
      modifies this
      ensures Valid() && regs == old(regs).(flags := old(regs.flags)[FLAG_P := EvenParity(v)])
    {
      var count := CountSetBits(v);
      SetFlag(FLAG_P, count % 2 == 0);
    }

    /** SetZSPFlags: Z from v == 0, S from bit 7, P from the parity of v. */
    method SetZSPFlags(v: int)
      requires Valid() && v >= 0
      modifies this
      ensures Valid() && regs == old(regs).(flags := WithZSP(old(regs.flags), v))
    {
      SetFlagZ(v == 0);
      SetFlagS((v / 0x80) % 2 == 1);
      SetFlagP(v);
    }

    function GetFlagsAsString(): (r: string)
      reads this
      requires Valid()
      ensures r == FlagsString(regs.flags)
    { FlagsString(regs.flags) }
  }

  /** The counting loop of SetFlagP. */
  method CountSetBits(v: nat) returns (count: nat)
    ensures count == PopCount(v)
  {
    count := 0;
    var w: nat := v;
    while w != 0
      invariant count + PopCount(w) == PopCount(v)
      decreases w
    {
      ClearLowestBitCount(w);
      count := count + 1;
      w := ClearLowestBit(w);
    }
  }

  /** The same loop run on a negative int never reaches zero: in two's complement
      clearing the lowest set bit of a negative number leaves it negative. */
  function ClearBitsAsWritten(v: int, steps: nat): int
    decreases steps
  {
    if steps == 0 || v == 0 then v else ClearBitsAsWritten(ClearLowestBitInt(v), steps - 1)
  }

  lemma {:induction false} ParityLoopNeverEnds(v: int, steps: nat)
    requires v < 0
    ensures ClearBitsAsWritten(v, steps) < 0
    decreases steps
  {
    if steps > 0 {
      ParityLoopNeverEnds(ClearLowestBitInt(v), steps - 1);
    }
  }
}
