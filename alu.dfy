/** The arithmetic and flag rules of the execution engine (i8088.py), as pure
    functions on values and on the FLAGS bit sequence.  Where the Python text
    computes something other than what the 8088 does and what the surrounding code
    evidently means, the text's rule is kept under an `AsWritten` name next to the
    corrected rule the processor model uses. */
module Alu {
  import opened Bits
  import opened State8088

  /** 0x100 for a byte operand, 0x10000 for a word operand. */
  function Width(word: bool): nat { if word then 0x10000 else 0x100 }

  /** The sign bit: 0x80 or 0x8000. */
  function SignMask(word: bool): nat { if word then 0x8000 else 0x80 }

  /** Two's-complement reading of an operand of the given width. */
  function Signed(word: bool, v: int): int { if word then ToSigned16(v) else ToSigned8(v) }

  /** The parity rule of the 8088: even population count of the low byte. */
  predicate Parity(v: int) { EvenParity(Low8(v)) }

  predicate OthersKept(r: seq<bool>, f: seq<bool>, a: nat, b: nat, c: nat, d: nat, e: nat, g: nat)
    requires IsFlags(r) && IsFlags(f)
  {
    forall j :: 0 <= j < 16 && j != a && j != b && j != c && j != d && j != e && j != g ==> r[j] == f[j]
  }

  // ---------------------------------------------------------------- add / sub

  function AuxCarry(r1: int, r2: int, issub: bool, c: bool): bool {
    var cin := if c then 1 else 0;
    HasBit(if issub then r1 % 16 - r2 % 16 - cin else r1 % 16 + r2 % 16 + cin, 0x10)
  }

  function OverflowRule(before: bool, value: bool, after: bool, issub: bool): bool {
    after != before && ((before != value && issub) || (before == value && !issub))
  }

  /** SetAddSubFlags as written: C and the sign used for O come from abs(result). */
  function AddSubFlagsAsWritten(f: seq<bool>, word: bool, r1: int, r2: int, result: int, issub: bool, c: bool): (r: seq<bool>)
    requires IsFlags(f)
    ensures IsFlags(r)
    ensures r[FLAG_C] == (Abs(result) >= Width(word))
    ensures r[FLAG_O] == OverflowRule(HasBit(r1, SignMask(word)), HasBit(r2, SignMask(word)), HasBit(Abs(result), SignMask(word)), issub)
  {
    var inReg := Mask(word, result);
    var m := SignMask(word);
    f[FLAG_O := OverflowRule(HasBit(r1, m), HasBit(r2, m), HasBit(Abs(result), m), issub)]
     [FLAG_C := Abs(result) >= Width(word)]
     [FLAG_S := HasBit(inReg, m)]
     [FLAG_Z := inReg == 0]
     [FLAG_A := AuxCarry(r1, r2, issub, c)]
     [FLAG_P := Parity(result)]
  }

  /** CMP 0,1 as written: the borrow is lost (C stays clear although 0 < 1). */
  lemma AddSubAsWrittenLosesBorrow(f: seq<bool>)
    requires IsFlags(f)
    ensures !AddSubFlagsAsWritten(f, false, 0, 1, -1, true, false)[FLAG_C]
    ensures AddSubFlags(f, false, 0, 1, -1, true, false)[FLAG_C]
  {
  }

  /** SUB 0,0x81 as written reports an overflow although 0 - (-127) = 127
      fits in a signed byte. */
  lemma AddSubAsWrittenFalseOverflow(f: seq<bool>)
    requires IsFlags(f)
    ensures AddSubFlagsAsWritten(f, false, 0, 0x81, -0x81, true, false)[FLAG_O]
    ensures !AddSubFlags(f, false, 0, 0x81, -0x81, true, false)[FLAG_O]
  {
    assert Mask(false, -0x81) == 0x7F;
  }

  /** SetAddSubFlags as intended: C is the carry out of / borrow into the operand
      width, the sign for O is the sign of the stored result. */
  function AddSubFlags(f: seq<bool>, word: bool, r1: int, r2: int, result: int, issub: bool, c: bool): (r: seq<bool>)
    requires IsFlags(f)
    ensures IsFlags(r)
    ensures r[FLAG_C] == (result < 0 || result >= Width(word))
    ensures r[FLAG_Z] == (result % Width(word) == 0)
    ensures r[FLAG_S] == HasBit(Mask(word, result), SignMask(word))
    ensures r[FLAG_P] == Parity(result)
    ensures r[FLAG_A] == AuxCarry(r1, r2, issub, c)
    ensures r[FLAG_O] == OverflowRule(HasBit(r1, SignMask(word)), HasBit(r2, SignMask(word)),
                                      HasBit(Mask(word, result), SignMask(word)), issub)
    ensures OthersKept(r, f, FLAG_O, FLAG_C, FLAG_S, FLAG_Z, FLAG_A, FLAG_P)
  {
    var inReg := Mask(word, result);
    var m := SignMask(word);
    var o := OverflowRule(HasBit(r1, m), HasBit(r2, m), HasBit(inReg, m), issub);
    var s := HasBit(inReg, m);
    var z := inReg == 0;
    f[FLAG_O := o][FLAG_C := result < 0 || result >= Width(word)][FLAG_S := s][FLAG_Z := z]
     [FLAG_A := AuxCarry(r1, r2, issub, c)][FLAG_P := Parity(result)]
  }

  lemma SignBit(word: bool, v: int)
    requires 0 <= v < Width(word)
    ensures HasBit(v, SignMask(word)) == (v >= SignMask(word))
    ensures Signed(word, v) == (if v >= SignMask(word) then v - Width(word) else v)
  {
  }

  /** Addition with carry-in: C is the unsigned carry out, O the signed overflow. */
  lemma {:induction false} AddFlagsMeaning(f: seq<bool>, word: bool, r1: int, r2: int, c: bool)
    requires IsFlags(f) && 0 <= r1 < Width(word) && 0 <= r2 < Width(word)
    ensures var cin := if c then 1 else 0;
            var r := AddSubFlags(f, word, r1, r2, r1 + r2 + cin, false, c);
            && (r[FLAG_C] <==> r1 + r2 + cin >= Width(word))
            && (r[FLAG_O] <==> !(-(SignMask(word) as int) <= Signed(word, r1) + Signed(word, r2) + cin < SignMask(word)))
  {
    var cin := if c then 1 else 0;
    var res := r1 + r2 + cin;
    SignBit(word, r1);
    SignBit(word, r2);
    var inReg := Mask(word, res);
    assert inReg == (if res >= Width(word) then res - Width(word) else res);
    SignBit(word, inReg);
  }

  /** Subtraction with borrow-in: C is the unsigned borrow. */
  lemma SubBorrowMeaning(f: seq<bool>, word: bool, r1: int, r2: int, c: bool)
    requires IsFlags(f) && 0 <= r1 < Width(word) && 0 <= r2 < Width(word)
    ensures var cin := if c then 1 else 0;
            AddSubFlags(f, word, r1, r2, r1 - r2 - cin, true, c)[FLAG_C] <==> r1 < r2 + cin
  {
  }

  /** Subtraction with borrow-in: O is the signed overflow. */
  lemma {:induction false} SubOverflowMeaning(f: seq<bool>, word: bool, r1: int, r2: int, c: bool)
    requires IsFlags(f) && 0 <= r1 < Width(word) && 0 <= r2 < Width(word)
    ensures var cin := if c then 1 else 0;
            AddSubFlags(f, word, r1, r2, r1 - r2 - cin, true, c)[FLAG_O] <==>
              !(-(SignMask(word) as int) <= Signed(word, r1) - Signed(word, r2) - cin < SignMask(word))
  {
    var cin := if c then 1 else 0;
    var res := r1 - r2 - cin;
    SignBit(word, r1);
    SignBit(word, r2);
    var inReg := Mask(word, res);
    assert inReg == (if res < 0 then res + Width(word) else res);
    SignBit(word, inReg);
    SubOverflowArith(Width(word), SignMask(word), r1, r2, cin);
  }

  /** The sign rule for subtraction overflow, on plain integers. */
  lemma SubOverflowArith(w: int, m: int, r1: int, r2: int, cin: int)
    requires m > 0 && w == 2 * m && 0 <= r1 < w && 0 <= r2 < w && 0 <= cin <= 1
    ensures var res := r1 - r2 - cin;
            var inReg := if res < 0 then res + w else res;
            var s1 := if r1 >= m then r1 - w else r1;
            var s2 := if r2 >= m then r2 - w else r2;
            OverflowRule(r1 >= m, r2 >= m, inReg >= m, true) <==> !(-m <= s1 - s2 - cin < m)
  {
  }

  // ---------------------------------------------------------------- logic

  /** SetLogicFuncFlags as written: parity over the whole result. */
  function LogicFlagsAsWritten(f: seq<bool>, word: bool, result: nat): (r: seq<bool>)
    requires IsFlags(f)
    ensures IsFlags(r)
    ensures r[FLAG_P] == EvenParity(result)
  {
    f[FLAG_O := false]
     [FLAG_S := HasBit(result, SignMask(word))]
     [FLAG_Z := if word then result == 0 else Low8(result) == 0]
     [FLAG_P := EvenParity(result)]
     [FLAG_A := false]
     [FLAG_C := false]
  }

  /** SetLogicFuncFlags as intended: parity of the low byte only. */
  function LogicFlags(f: seq<bool>, word: bool, result: nat): (r: seq<bool>)
    requires IsFlags(f)
    ensures IsFlags(r)
    ensures !r[FLAG_O] && !r[FLAG_A] && !r[FLAG_C]
    ensures r[FLAG_S] == HasBit(result, SignMask(word))
    ensures result < Width(word) ==> (r[FLAG_Z] <==> result == 0)
    ensures r[FLAG_P] == Parity(result)
    ensures OthersKept(r, f, FLAG_O, FLAG_C, FLAG_S, FLAG_Z, FLAG_A, FLAG_P)
  {
    f[FLAG_O := false]
     [FLAG_S := HasBit(result, SignMask(word))]
     [FLAG_Z := if word then result == 0 else Low8(result) == 0]
     [FLAG_P := Parity(result)]
     [FLAG_A := false]
     [FLAG_C := false]
  }

  /** OR AX,0x0100: the low byte is 0 (even parity), yet the text clears P. */
  lemma LogicParityAsWritten(f: seq<bool>)
    requires IsFlags(f)
    ensures !LogicFlagsAsWritten(f, true, 0x100)[FLAG_P]
    ensures LogicFlags(f, true, 0x100)[FLAG_P]
  {
    assert PopCount(0x100) == 1;
    assert Low8(0x100) == 0;
  }

  // ---------------------------------------------------------------- write-back

  /** The handlers of the text store ALU results without cutting them to the
      operand width. */
  function WriteBackAsWritten(word: bool, result: int): int { result }

  /** ADD byte 0xFF + 1, NOT of 0 and SHL word 0x8000 store 0x100, -1 and 0x10000. */
  lemma WriteBackAsWrittenOutOfRange()
    ensures !IsByte(WriteBackAsWritten(false, 0xFF + 1))
    ensures !IsByte(WriteBackAsWritten(false, -1))
    ensures !IsWord(WriteBackAsWritten(true, 0x8000 * 2))
    ensures Mask(false, 0xFF + 1) == 0 && Mask(false, -1) == 0xFF && Mask(true, 0x8000 * 2) == 0
  {
  }

  // ---------------------------------------------------------------- group 1

  /** The /reg field of opcodes 0x80-0x83: ADD OR ADC SBB AND SUB XOR CMP. */
  function Group1Result(op: nat, r1: nat, r2: nat, c: bool): (r: int)
    requires op < 8
    ensures op == 0 ==> r == r1 + r2
    ensures op == 2 ==> r == r1 + r2 + (if c then 1 else 0)
    ensures op == 3 ==> r == r1 - r2 - (if c then 1 else 0)
    ensures op == 5 || op == 7 ==> r == r1 - r2
  {
    match op
    case 0 => r1 + r2
    case 1 => BitOr(r1, r2)
    case 2 => r1 + r2 + (if c then 1 else 0)
    case 3 => r1 - r2 - (if c then 1 else 0)
    case 4 => BitAnd(r1, r2)
    case 5 => r1 - r2
    case 6 => BitXor(r1, r2)
    case _ => r1 - r2
  }

  predicate Group1IsLogic(op: nat) { op == 1 || op == 4 || op == 6 }
  predicate Group1IsSub(op: nat) { op == 3 || op == 5 || op == 7 }
  predicate Group1UsesCarry(op: nat) { op == 2 || op == 3 }

  /** The logic results of word operands are words again. */
  lemma {:induction false} Group1LogicInRange(op: nat, r1: nat, r2: nat, c: bool, word: bool)
    requires op < 8 && Group1IsLogic(op) && r1 < Width(word) && r2 < Width(word)
    ensures 0 <= Group1Result(op, r1, r2, c) < Width(word)
  {
    if word {
      Pow2Values();
      BitOrXorBound(r1, r2, 16);
    } else {
      Pow2Values();
      BitOrXorBound(r1, r2, 8);
    }
  }

  // ---------------------------------------------------------------- Jcc

  /** The eight base conditions; the odd opcode of each pair is the negation. */
  function BaseCondition(k: nat, f: seq<bool>): bool
    requires k < 8 && IsFlags(f)
  {
    match k
    case 0 => f[FLAG_O]
    case 1 => f[FLAG_C]
    case 2 => f[FLAG_Z]
    case 3 => f[FLAG_C] || f[FLAG_Z]
    case 4 => f[FLAG_S]
    case 5 => f[FLAG_P]
    case 6 => f[FLAG_S] != f[FLAG_O]
    case _ => f[FLAG_Z] || f[FLAG_S] != f[FLAG_O]
  }

  /** Op_Jxx's choice for opcodes 0x60-0x7F. */
  function JccTaken(opcode: nat, f: seq<bool>): (r: bool)
    requires 0x60 <= opcode < 0x80 && IsFlags(f)
    ensures r == (if opcode % 2 == 0 then BaseCondition((opcode % 16) / 2, f) else !BaseCondition((opcode % 16) / 2, f))
  {
    var o := f[FLAG_O]; var c := f[FLAG_C]; var z := f[FLAG_Z]; var s := f[FLAG_S]; var p := f[FLAG_P];
    if opcode == 0x70 || opcode == 0x60 then o
    else if opcode == 0x71 || opcode == 0x61 then !o
    else if opcode == 0x72 || opcode == 0x62 then c
    else if opcode == 0x73 || opcode == 0x63 then !c
    else if opcode == 0x74 || opcode == 0x64 then z
    else if opcode == 0x75 || opcode == 0x65 then !z
    else if opcode == 0x76 || opcode == 0x66 then c || z
    else if opcode == 0x77 || opcode == 0x67 then !c && !z
    else if opcode == 0x78 || opcode == 0x68 then s
    else if opcode == 0x79 || opcode == 0x69 then !s
    else if opcode == 0x7a || opcode == 0x6a then p
    else if opcode == 0x7b || opcode == 0x6b then !p
    else if opcode == 0x7c || opcode == 0x6c then s != o
    else if opcode == 0x7d || opcode == 0x6d then s == o
    else if opcode == 0x7e || opcode == 0x6e then z || s != o
    else z == false && s == o
  }

  /** 0x60-0x6F behave exactly as 0x70-0x7F. */
  lemma JccAlias(opcode: nat, f: seq<bool>)
    requires 0x60 <= opcode < 0x70 && IsFlags(f)
    ensures JccTaken(opcode, f) == JccTaken(opcode + 0x10, f)
  {
  }

  /** A short jump: IP plus the sign-extended displacement, within the segment. */
  function ShortTarget(ip: int, disp: int): (r: int)
    requires IsWord(ip) && IsByte(disp)
    ensures IsWord(r)
    ensures disp < 0x80 ==> r == (ip + disp) % 0x10000
    ensures disp >= 0x80 ==> r == (ip + disp - 0x100) % 0x10000
  { (ip + ToSigned8(disp)) % 0x10000 }

  // ---------------------------------------------------------------- LOOP

  predicate LoopCondition(opcode: nat, z: bool)
  {
    opcode == 0xe2 || (opcode == 0xe1 && z) || (opcode == 0xe0 && !z)
  }

  /** Op_LOOP as written: CX - 1 is stored unmasked and the jump tests `cx > 0`. */
  function LoopAsWritten(cx: int, opcode: nat, z: bool): (int, bool)
  {
    (cx - 1, cx - 1 > 0 && LoopCondition(opcode, z))
  }

  /** LOOP as intended: CX wraps to 0xFFFF, and the jump is taken while CX != 0. */
  function LoopStep(cx: int, opcode: nat, z: bool): (r: (int, bool))
    requires IsWord(cx)
    ensures IsWord(r.0)
    ensures (r.0 + 1) % 0x10000 == cx
    ensures r.1 <==> cx != 1 && LoopCondition(opcode, z)
  {
    var n := (cx - 1) % 0x10000;
    (n, n != 0 && LoopCondition(opcode, z))
  }

  /** With CX = 0 the text leaves CX = -1 and falls through; the 8088 loops 65536 times. */
  lemma LoopAsWrittenAtZero()
    ensures LoopAsWritten(0, 0xe2, false) == (-1, false)
    ensures LoopStep(0, 0xe2, false) == (0xFFFF, true)
  {
  }

  /** For CX in 1..0xFFFF the text and the intended rule agree. */
  lemma LoopAgreesAwayFromZero(cx: int, opcode: nat, z: bool)
    requires 1 <= cx <= 0xFFFF
    ensures LoopAsWritten(cx, opcode, z) == LoopStep(cx, opcode, z)
  {
  }

  // ---------------------------------------------------------------- INC / DEC

  /** The value Op_INC_DEC computes as written: v + 1 or v - 1, not wrapped. */
  function IncDecRaw(v: int, isDec: bool): int {
    if isDec then v - 1 else v + 1
  }

  /** Op_INC_DEC as written: the flags come from the unmasked value, which is also
      what is stored, and P counts every bit of it.  (DEC of 0 hands -1 to
      SetFlagP, whose loop never ends, see DecZeroAsWrittenHangs; the requires
      keeps that case out.) */
  function IncDecAsWritten(f: seq<bool>, v: int, isDec: bool): (r: (int, seq<bool>))
    requires IsFlags(f) && IsWord(v) && !(isDec && v == 0)
    ensures IsFlags(r.1)
  {
    var n := IncDecRaw(v, isDec);
    (n, f[FLAG_O := if isDec then n == 0x7fff else n == 0x8000]
         [FLAG_A := if isDec then n % 16 == 15 else n % 16 == 0]
         [FLAG_S := HasBit(n, 0x8000)]
         [FLAG_Z := n == 0]
         [FLAG_P := EvenParity(n)])
  }

  /** INC of 0xFFFF as written stores 0x10000 and leaves Z clear. */
  lemma IncAsWrittenAtTop(f: seq<bool>)
    requires IsFlags(f)
    ensures IncDecAsWritten(f, 0xFFFF, false).0 == 0x10000
    ensures !IncDecAsWritten(f, 0xFFFF, false).1[FLAG_Z]
    ensures IncDec(f, 0xFFFF, false).0 == 0 && IncDec(f, 0xFFFF, false).1[FLAG_Z]
  {
  }

  /** INC of 0x00FF as written clears P: the parity is counted over all of
      0x100, which has one set bit.  The 8088 counts the low byte 0x00 and
      sets P. */
  lemma IncAsWrittenParity(f: seq<bool>)
    requires IsFlags(f)
    ensures IncDecAsWritten(f, 0xFF, false).0 == 0x100 && !IncDecAsWritten(f, 0xFF, false).1[FLAG_P]
    ensures IncDec(f, 0xFF, false).0 == 0x100 && IncDec(f, 0xFF, false).1[FLAG_P]
  {
    Pow2Values();
    PopCountPow2(8);
  }

  /** DEC of 0 as written hands -1 to SetFlagP, whose bit-clearing loop stays
      negative however long it runs: the instruction never completes.  The
      8088 stores 0xFFFF and goes on. */
  lemma DecZeroAsWrittenHangs(steps: nat)
    ensures IncDecRaw(0, true) == -1 && ClearBitsAsWritten(IncDecRaw(0, true), steps) < 0
    ensures IncDecValue(0, true) == 0xFFFF
  {
    ParityLoopNeverEnds(-1, steps);
  }

  /** The value INC/DEC store: a 16-bit wrap. */
  function IncDecValue(v: int, isDec: bool): (r: int)
    requires IsWord(v)
    ensures IsWord(r)
    ensures r == (if isDec then (if v == 0 then 0xFFFF else v - 1) else (if v == 0xFFFF then 0 else v + 1))
  { (if isDec then v - 1 else v + 1) % 0x10000 }

  /** INC/DEC as intended: a 16-bit wrap, flags from the stored value, C kept. */
  function IncDec(f: seq<bool>, v: int, isDec: bool): (r: (int, seq<bool>))
    requires IsFlags(f) && IsWord(v)
    ensures IsWord(r.0) && IsFlags(r.1)
    ensures r.0 == IncDecValue(v, isDec)
    ensures r.1[FLAG_Z] <==> (if isDec then v == 1 else v == 0xFFFF)
    ensures r.1[FLAG_O] <==> (if isDec then v == 0x8000 else v == 0x7FFF)
    ensures r.1[FLAG_S] <==> r.0 >= 0x8000
    ensures r.1[FLAG_P] == Parity(r.0)
    ensures r.1[FLAG_C] == f[FLAG_C]
    ensures OthersKept(r.1, f, FLAG_O, FLAG_A, FLAG_S, FLAG_Z, FLAG_P, FLAG_P)
  {
    var n := IncDecValue(v, isDec);
    (n, f[FLAG_O := if isDec then n == 0x7fff else n == 0x8000]
         [FLAG_A := if isDec then n % 16 == 15 else n % 16 == 0]
         [FLAG_S := HasBit(n, 0x8000)]
         [FLAG_Z := n == 0]
         [FLAG_P := Parity(n)])
  }

  /** DEC undoes INC and INC undoes DEC. */
  lemma IncDecInverse(v: int)
    requires IsWord(v)
    ensures IncDecValue(IncDecValue(v, false), true) == v
    ensures IncDecValue(IncDecValue(v, true), false) == v
  {
  }

  // ---------------------------------------------------------------- MUL / DIV

  /** MUL word as written: SetAX receives the whole 32-bit product, so AH holds
      bits 8..31; the returned triple is (AH, AL, DX). */
  function MulWordAsWritten(ax: int, r1: int): (int, int, int)
    requires IsWord(ax) && IsWord(r1)
  {
    var p := ax * r1;
    (p / 0x100, p % 0x100, (p / 0x10000) % 0x10000)
  }

  /** 0x100 * 0x100 as written leaves AH = 0x100, which is no byte. */
  lemma MulWordAsWrittenOverflowsAH()
    ensures MulWordAsWritten(0x100, 0x100).0 == 0x100
    ensures Mul(true, 0x100, 0x100, false).0 == 0
  {
    assert 0x100 * 0x100 == 0x10000;
  }

  /** MUL as intended: returns (AX, DX, C=O flag).  The product, negated when the
      REP quirk applies, is cut to 16 bits (byte form) or split DX:AX (word form). */
  function Mul(word: bool, acc: int, r1: int, negate: bool): (r: (int, int, bool))
    requires IsWord(acc) && IsWord(r1)
    ensures IsWord(r.0) && IsWord(r.1)
    ensures !word ==> r.1 == 0
    ensures r.2 <==> (if word then r.1 != 0 else r.0 >= 0x100)
  {
    if word then
      var p := acc * r1;
      var m := (if negate then -p else p) % 0x100000000;
      (m % 0x10000, m / 0x10000, m / 0x10000 != 0)
    else
      var p := acc * r1;
      var ax := (if negate then -p else p) % 0x10000;
      (ax, 0, ax / 0x100 != 0)
  }

  lemma ProductBounds(a: int, b: int, n: int)
    requires 0 <= a < n && 0 <= b < n
    ensures 0 <= a * b <= (n - 1) * (n - 1)
  {
    MulLe(b, n - 1, a);
    MulLe(a, n - 1, n - 1);
    assert a * (n - 1) == (n - 1) * a;
  }

  /** Multiplying by a non-negative factor keeps the order. */
  lemma MulLe(x: int, y: int, k: int)
    requires x <= y && k >= 0
    ensures x * k <= y * k
  {
  }

  /** Without the REP quirk, MUL leaves the exact product: in AX for bytes, in
      DX:AX for words, and C=O is set iff the upper half is non-zero. */
  lemma {:induction false} MulMeaning(word: bool, acc: int, r1: int)
    requires IsWord(acc) && IsWord(r1)
    requires !word ==> IsByte(acc) && IsByte(r1)
    ensures var r := Mul(word, acc, r1, false);
            && (word ==> r.1 * 0x10000 + r.0 == acc * r1 && (r.2 <==> acc * r1 >= 0x10000))
            && (!word ==> r.0 == acc * r1 && (r.2 <==> acc * r1 >= 0x100))
  {
    if word {
      ProductBounds(acc, r1, 0x10000);
      var p := acc * r1;
      assert p % 0x100000000 == p;
    } else {
      ProductBounds(acc, r1, 0x100);
    }
  }

  datatype DivOutcome = DivideError | Quotient(q: int, rem: int)

  /** DIV: a zero divisor or a quotient that does not fit the destination traps.
      (The text divides with `/`, a float division; the intended integer quotient
      and remainder are modelled.) */
  function Div(word: bool, dividend: nat, divisor: nat): (r: DivOutcome)
    ensures r.DivideError? <==> divisor == 0 || dividend / divisor >= Width(word)
    ensures r.Quotient? ==> 0 <= r.q < Width(word) && 0 <= r.rem < divisor
  {
    if divisor == 0 || dividend / divisor >= Width(word) then DivideError
    else Quotient(dividend / divisor, dividend % divisor)
  }

  /** DIV traps exactly when the divisor is 0 or the true quotient does not fit;
      otherwise it leaves the quotient and remainder of the division. */
  lemma {:induction false} DivMeaning(word: bool, dividend: nat, divisor: nat)
    ensures var r := Div(word, dividend, divisor);
            && (r.DivideError? <==> divisor == 0 || dividend >= Width(word) * divisor)
            && (r.Quotient? ==> r.q * divisor + r.rem == dividend)
  {
    if divisor != 0 {
      QuotientFits(dividend, divisor, Width(word));
    }
  }

  /** The quotient a / b is below w exactly when a is below w * b. */
  lemma QuotientFits(a: nat, b: nat, w: nat)
    requires b > 0
    ensures a / b < w <==> a < w * b
    ensures a == (a / b) * b + a % b
  {
    var q := a / b;
    assert a == q * b + a % b;
    if q >= w {
      MulLe(w, q, b);
    } else {
      MulLe(q + 1, w, b);
      assert (q + 1) * b == q * b + b;
    }
  }

  // ---------------------------------------------------------------- shifts

  /** One step of the rotate/shift loop of Op_shift, on (value, carry).  `sign` is
      the sign bit SAR re-inserts, captured before the loop. */
  function ShiftStep(mode: nat, word: bool, v: int, c: bool, sign: int): (r: (int, bool))
    requires mode < 8 && mode != 6 && 0 <= v < Width(word)
    requires sign == 0 || sign == SignMask(word)
    ensures 0 <= r.0 < Width(word)
  {
    var top := SignMask(word);
    var w := Width(word);
    match mode
    case 0 => var b := HasBit(v, top); ((v * 2) % w + (if b then 1 else 0), b)
    case 1 => var b := v % 2 == 1; (v / 2 + (if b then top else 0), b)
    case 2 => ((v * 2) % w + (if c then 1 else 0), HasBit(v, top))
    case 3 => (v / 2 + (if c then top else 0), v % 2 == 1)
    case 4 => ((v * 2) % w, HasBit(v, top))
    case 5 => (v / 2, v % 2 == 1)
    case _ => (v / 2 + sign, v % 2 == 1)
  }

  function ShiftIterate(mode: nat, word: bool, v: int, c: bool, sign: int, n: nat): (r: (int, bool))
    requires mode < 8 && mode != 6 && 0 <= v < Width(word)
    requires sign == 0 || sign == SignMask(word)
    ensures 0 <= r.0 < Width(word)
    decreases n
  {
    if n == 0 then (v, c)
    else
      var s := ShiftStep(mode, word, v, c, sign);
      ShiftIterate(mode, word, s.0, s.1, sign, n - 1)
  }

  /** A rotation by one is undone by the opposite rotation by one (ROL/ROR and,
      through the carry, RCL/RCR). */
  lemma {:induction false} RotateInverse(word: bool, v: int, c: bool)
    requires 0 <= v < Width(word)
    ensures var s := ShiftStep(0, word, v, c, 0); ShiftStep(1, word, s.0, s.1, 0).0 == v
    ensures var s := ShiftStep(2, word, v, c, 0); ShiftStep(3, word, s.0, s.1, 0) == (v, c)
  {
    var top := SignMask(word);
    SignBit(word, v);
    var low := if v >= top then v - top else v;
    Doubled(Width(word), top, v, low);
  }

  /** Doubling v within width w = 2 * top drops the top bit: the result is
      twice what is left of v below that bit. */
  lemma Doubled(w: int, top: int, v: int, low: int)
    requires w == 2 * top && top > 0 && 0 <= v < w && low == (if v >= top then v - top else v)
    ensures (v * 2) % w == 2 * low && ((v * 2) % w + 1) / 2 == low && (v * 2) % w / 2 == low
    ensures ((v * 2) % w + 1) % 2 == 1 && ((v * 2) % w) % 2 == 0
  {
    if v >= top {
      DivUnique(v * 2, w, 1, 2 * low);
    } else {
      DivUnique(v * 2, w, 0, 2 * low);
    }
  }

  /** Division by b then c is division by b * c (for positive divisors, where
      Dafny's division is floor division). */
  lemma DivDiv(a: int, b: nat, c: nat)
    requires b > 0 && c > 0
    ensures (a / b) / c == a / (b * c)
  {
    var q := a / b;
    var r := a % b;
    var q2 := q / c;
    var r2 := q % c;
    assert a == b * q + r;
    assert q == c * q2 + r2;
    calc {
      b * q;
      b * (c * q2 + r2);
      b * (c * q2) + b * r2;
      (b * c) * q2 + b * r2;
    }
    MulSign(b, c - r2);
    assert 0 <= b * r2 && b * r2 + b <= b * c;
    DivUnique(a, b * c, q2, b * r2 + r);
  }

  /** The quotient is the unique q with a == d * q + r and 0 <= r < d. */
  lemma DivUnique(a: int, d: nat, q: int, r: int)
    requires d > 0 && 0 <= r < d && a == d * q + r
    ensures a / d == q && a % d == r
  {
    var q0 := a / d;
    assert d * (q - q0) == a % d - r;
    MulSign(d, q - q0);
  }

  lemma MulSign(d: nat, k: int)
    ensures k >= 1 ==> d * k >= d
    ensures k <= -1 ==> d * k + d <= 0
  {
  }

  /** (a mod w) * b and a * b agree modulo w. */
  lemma ModMulLeft(a: int, b: nat, w: nat)
    requires w > 0
    ensures ((a % w) * b) % w == (a * b) % w
  {
    var q := a / w;
    assert a == q * w + a % w;
    assert a * b == (q * b) * w + (a % w) * b;
    var x := (a % w) * b;
    DivUnique(a * b, w, q * b + x / w, x % w);
  }

  /** The sign mask SAR shifts in: the sign bit of the original value. */
  function SarSign(word: bool, v: int): (s: nat)
    ensures s == 0 || s == SignMask(word)
  {
    if v >= SignMask(word) then SignMask(word) else 0
  }

  /** SHL by n multiplies by 2^n modulo the width. */
  lemma {:induction false} ShlMultiplies(word: bool, v: int, c: bool, n: nat)
    requires 0 <= v < Width(word)
    ensures ShiftIterate(4, word, v, c, 0, n).0 == (v * Pow2(n)) % Width(word)
    decreases n
  {
    if n > 0 {
      var w := Width(word);
      var s := ShiftStep(4, word, v, c, 0);
      var p := Pow2(n - 1);
      ShlMultiplies(word, s.0, s.1, n - 1);
      ModMulLeft(v * 2, p, w);
      MulAssoc(v, p);
    }
  }

  lemma MulAssoc(v: int, p: int)
    ensures v * 2 * p == v * (2 * p)
  {
  }

  /** SHR by n divides by 2^n. */
  lemma {:induction false} ShrDivides(word: bool, v: int, c: bool, n: nat)
    requires 0 <= v < Width(word)
    ensures ShiftIterate(5, word, v, c, 0, n).0 == v / Pow2(n)
    decreases n
  {
    if n > 0 {
      var s := ShiftStep(5, word, v, c, 0);
      ShrDivides(word, s.0, s.1, n - 1);
      DivDiv(v, 2, Pow2(n - 1));
    }
  }

  /** One SAR step halves the two's-complement value, rounding down, and keeps
      the sign. */
  lemma SarStep(word: bool, v: int, c: bool)
    requires 0 <= v < Width(word)
    ensures var s := ShiftStep(7, word, v, c, SarSign(word, v));
            && Signed(word, s.0) == Signed(word, v) / 2
            && SarSign(word, s.0) == SarSign(word, v)
  {
    var s := ShiftStep(7, word, v, c, SarSign(word, v));
    SignBit(word, v);
    SignBit(word, s.0);
    if v >= SignMask(word) {
      assert s.0 == v / 2 + SignMask(word);
      assert Signed(word, v) == v - Width(word);
      DivUnique(v - Width(word), 2, v / 2 - SignMask(word), v % 2);
    }
  }

  /** SAR by n is floor division of the signed value by 2^n, and never changes
      the sign. */
  lemma {:induction false} SarDivides(word: bool, v: int, c: bool, n: nat)
    requires 0 <= v < Width(word)
    ensures var s := ShiftIterate(7, word, v, c, SarSign(word, v), n);
            && Signed(word, s.0) == Signed(word, v) / Pow2(n)
            && (s.0 >= SignMask(word) <==> v >= SignMask(word))
    decreases n
  {
    if n > 0 {
      var s := ShiftStep(7, word, v, c, SarSign(word, v));
      SarStep(word, v, c);
      SarDivides(word, s.0, s.1, n - 1);
      DivDiv(Signed(word, v), 2, Pow2(n - 1));
    }
  }
}
