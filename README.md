# PyPC core in Dafny

A verified model of the emulation core of PyPC, an IBM PC/XT emulator. The
model covers the 8088 processor state and its execution engine (the step
function, REP prefixes, interrupt delivery, and the arithmetic, logic, jump,
loop, exchange and shift handlers), the 8259 interrupt controller, the memory bus with RAM and ROM, the
I/O port dispatch (both `pc_io.py` and the older `io.py` that the processor
imports), and the chipset devices: the interrupt-delay queue every device
inherits, the 8237 DMA controller, the 8253 timer, the keyboard, the 8255
PPI, the monochrome display adapter and the XT-IDE disk adapter.

One Dafny module per source file:

| module | file | source |
|---|---|---|
| `Bits` | bits.dfy | shared byte, word and bit arithmetic |
| `State8088` | state8088.dfy | state8088.py |
| `CpuMemory`, `Alu`, `CpuCore`, `CpuOps`, `I8088` | cpu_memory.dfy, alu.dfy, cpu_core.dfy, cpu_ops.dfy, i8088.dfy | i8088.py |
| `Pic` | i8259.dfy | i8259.py |
| `Device` | device.dfy | device.py |
| `Memory`, `Rom`, `Bus` | memory.dfy, rom.dfy, bus.dfy | memory.py, rom.py, bus.py |
| `Io`, `PcIo` | io.dfy, pc_io.dfy | io.py, pc_io.py |
| `I8237`, `I8253`, `Keyboard`, `Ppi`, `Mda`, `XtIde` | i8237.dfy … xtide.dfy | i8237.py … xtide.py |

Where the source changes state in place, the model does too. Each device is
a `class` that holds its registers, and its methods change them. Each
method's postcondition ties the new state to a specification function on
the old state. The properties are proved about those functions: as their
own postconditions, and as lemmas that relate several calls (round trips,
FIFO order, reset handshakes, transfer counts).

The processor's memory is a map from linear address `seg * 16 + off` to
byte, where an address never written reads 0xFF. In the source the
processor's memory accessors are not defined. The devices the bus and the
I/O ports reach are given as functions, and the I/O functions thread a
generic device state.

## Model

| member | source | states |
|---|---|---|
| State8088.FlagsWord | state8088.py:170-171 | the FLAGS word read by GetFlags is below 2^n for n flag bits |
| State8088.WordFlags | state8088.py:140-141 | the flags stored by SetFlags: bit i of the stored value is bit i of the word |
| State8088.WordFlagsRoundTrip | state8088.py:140-141 | storing the word read from a flags value gives back the same flags |
| State8088.FlagsWordRoundTrip | state8088.py:170-171 | reading back a stored word below 2^n gives the word |
| State8088.Fixed | state8088.py:80-83 | FixFlags sets bit 1 and bits 12-15, clears bits 3 and 5, keeps every other bit |
| State8088.WithZSP | state8088.py:173-176 | Z is v == 0, S is bit 7 of v, P is the even parity of v; no other flag changes |
| State8088.FlagsString | state8088.py:54-66 | eight characters o I T s z a p c, each shown when its flag is set and '-' otherwise |
| State8088.Compose | state8088.py:85-86 | a 16-bit register read is a word whose high byte is the high half and low byte the low half |
| State8088.ComposeSplit | state8088.py:88-90 | splitting a word into `v >> 8` and `v & 255` and composing again gives the word |
| State8088.Zeroed | state8088.py:10-49 | the initial state: every register and field zero, false or NotSet, and well formed |
| State8088.State8088.constructor | state8088.py:10-49 | a new state object holds the zeroed state |
| State8088.State8088.GetAX | state8088.py:85-86 | AX is a word whose high byte is AH and low byte AL |
| State8088.State8088.GetBX | state8088.py:92-93 | BX is a word whose high byte is BH and low byte BL |
| State8088.State8088.GetCX | state8088.py:99-100 | CX is a word whose high byte is CH and low byte CL |
| State8088.State8088.GetDX | state8088.py:106-107 | DX is a word whose high byte is DH and low byte DL |
| State8088.State8088.SetAX | state8088.py:88-90 | only AH and AL change, and GetAX then returns the value written |
| State8088.State8088.SetBX | state8088.py:95-97 | only BH and BL change, and GetBX then returns the value written |
| State8088.State8088.SetCX | state8088.py:102-104 | only CH and CL change, and GetCX then returns the value written |
| State8088.State8088.SetDX | state8088.py:109-111 | only DH and DL change, and GetDX then returns the value written |
| State8088.State8088.SetFlag | state8088.py:184-186 | exactly the one flag bit takes the new state |
| State8088.State8088.SetFlagC | state8088.py:191-192 | only the carry flag (bit 0) changes |
| State8088.State8088.SetFlagA | state8088.py:209-210 | only the auxiliary-carry flag (bit 4) changes |
| State8088.State8088.SetFlagZ | state8088.py:215-216 | only the zero flag (bit 6) changes |
| State8088.State8088.SetFlagS | state8088.py:221-222 | only the sign flag (bit 7) changes |
| State8088.State8088.SetFlagT | state8088.py:227-228 | only the trap flag (bit 8) changes |
| State8088.State8088.SetFlagI | state8088.py:233-234 | only the interrupt flag (bit 9) changes |
| State8088.State8088.SetFlagD | state8088.py:239-240 | only the direction flag (bit 10) changes |
| State8088.State8088.SetFlagO | state8088.py:245-246 | only the overflow flag (bit 11) changes |
| State8088.State8088.GetFlags | state8088.py:170-171 | the FLAGS word is a 16-bit value |
| State8088.State8088.SetFlags | state8088.py:140-141 | the flags become the bits of the word, and GetFlags then returns that word |
| State8088.State8088.FixFlags | state8088.py:80-83 | the flags become Fixed of the old flags; nothing else changes |
| State8088.State8088.SetFlagP | state8088.py:197-204 | the parity flag becomes true exactly when v has an even number of set bits |
| State8088.State8088.SetZSPFlags | state8088.py:173-176 | the flags become WithZSP of the old flags |
| State8088.State8088.GetFlagsAsString | state8088.py:54-66 | the summary string of the current flags |
| State8088.CountSetBits | state8088.py:198-202 | the loop that clears the lowest set bit counts exactly the set bits of v |
| State8088.ParityLoopNeverEnds | state8088.py:200-202 | for a negative v, clearing the lowest set bit any number of times leaves v negative, so the loop never ends |
| CpuMemory.Linear | i8088.py:11 | a segment:offset pair selects a linear address inside the 24-bit MemMask space |
| CpuMemory.ReadByte | i8088.py:219-223 | a byte read returns a byte, and 0xFF where nothing was ever written |
| CpuMemory.ReadMemByte | i8088.py:219-223 | the byte at segment * 16 + offset |
| CpuMemory.ReadMemWord | i8088.py:565-568 | a word read is little-endian: low byte at the address, high byte at the next |
| CpuMemory.WriteMemByte | i8088.py:561-563 | a byte write is read back at its address and leaves every other address unchanged |
| CpuMemory.WriteMemWord | i8088.py:561-563 | a word write keeps memory holding bytes only |
| CpuMemory.AdjacentDistinct | i8088.py:561-568 | the two bytes of a word sit at different linear addresses |
| CpuMemory.WordRoundTrip | i8088.py:561-568 | the word popped from where a word was pushed is that word |
| CpuMemory.WordFrame | i8088.py:561-563 | a word write changes only its own two bytes |
| CpuMemory.WordReadOther | i8088.py:561-568 | a word read whose bytes do not overlap a word write is not affected by it |
| Bits.ToSigned8 | i8088.py:208-210 | the value in -128..127 with the same low eight bits |
| Bits.ToSigned16 | i8088.py:212-214 | the value in -32768..32767 with the same low sixteen bits |
| Alu.AddSubFlagsAsWritten | i8088.py:230-252 | as written, C and the sign used for O come from abs(result) |
| Alu.AddSubAsWrittenLosesBorrow | i8088.py:232-243 | CMP 0,1 as written leaves C clear although 0 < 1; the corrected rule sets it |
| Alu.AddSubAsWrittenFalseOverflow | i8088.py:232-243 | SUB 0,0x81 as written reports an overflow although 0 - (-127) = 127 fits in a signed byte; the corrected rule does not |
| Alu.AddSubFlags | i8088.py:230-252 | C is a carry out of or borrow into the operand width, Z and S come from the stored result, P from its low byte, A from the low nibbles, O from the sign rule; no other flag changes |
| Alu.SignBit | i8088.py:238-240 | the sign bit of an operand is set exactly when its signed reading is negative |
| Alu.AddFlagsMeaning | i8088.py:819-858 | after an addition with carry-in, C is set iff the unsigned sum does not fit and O iff the signed sum does not fit |
| Alu.SubBorrowMeaning | i8088.py:966-1015 | after a subtraction with borrow-in, C is set iff r1 < r2 + borrow |
| Alu.SubOverflowMeaning | i8088.py:966-1015 | after a subtraction with borrow-in, O is set iff the signed difference does not fit |
| Alu.SubOverflowArith | i8088.py:238-242 | the sign comparison rule for subtraction is exactly signed overflow |
| Alu.LogicFlagsAsWritten | i8088.py:551-559 | as written, parity is taken over the whole result |
| Alu.LogicFlags | i8088.py:551-559 | O, A and C clear, S from the sign bit, Z iff the result is zero, P from the low byte; no other flag changes |
| Bits.PopCountPow2 | i8088.py:1495 | a power of two has exactly one set bit, so its parity is odd |
| Alu.LogicParityAsWritten | i8088.py:555 | OR AX,0x0100 as written clears P although the low byte 0 has even parity; the corrected rule sets it |
| Alu.WriteBackAsWrittenOutOfRange | i8088.py:403-453 | handlers that store results without masking store 0x100, -1 or 0x10000 where the 8088 stores 0, 0xFF or 0 |
| Alu.Group1Result | i8088.py:921-953 | the /reg field selects ADD, OR, ADC, SBB, AND, SUB, XOR and CMP, with the carry added or subtracted for ADC and SBB |
| Alu.Group1LogicInRange | i8088.py:924-948 | OR, AND and XOR of operands of a width stay within that width |
| Alu.JccTaken | i8088.py:1202-1238 | each even opcode of a pair jumps on its base condition and the odd one on its negation |
| Alu.JccAlias | i8088.py:1207-1238 | opcodes 0x60-0x6F behave as 0x70-0x7F |
| Alu.ShortTarget | i8088.py:1240-1241 | the target is IP plus the sign-extended displacement, wrapped to 16 bits |
| Alu.LoopStep | i8088.py:1171-1198 | CX is decremented with a 16-bit wrap, and the jump is taken iff the new CX is not 0 and the Z condition of LOOPZ/LOOPNZ holds |
| Alu.LoopAsWrittenAtZero | i8088.py:1177-1186 | as written, LOOP with CX = 0 leaves CX = -1 and falls through; the 8088 takes the jump with CX = 0xFFFF |
| Alu.LoopAgreesAwayFromZero | i8088.py:1177-1198 | for CX from 1 to 0xFFFF the written LOOP and the corrected one agree |
| Alu.IncDecAsWritten | i8088.py:1478-1497 | as written, flags and stored value come from the unmasked v + 1 or v - 1 |
| Alu.IncAsWrittenAtTop | i8088.py:1489-1497 | INC 0xFFFF as written stores 0x10000 and leaves Z clear; the corrected rule stores 0 and sets Z |
| Alu.IncAsWrittenParity | i8088.py:1489-1495 | INC of word 0x00FF as written stores 0x100 and clears P, because P counts all bits of 0x100; the corrected rule takes P from the low byte 0 and sets it |
| Alu.DecZeroAsWrittenHangs | i8088.py:1489-1495 | DEC of 0 as written hands -1 to SetFlagP, whose bit-clearing loop keeps the value negative however often it runs; the corrected rule stores 0xFFFF |
| Alu.IncDecValue | i8088.py:1478-1497 | INC and DEC wrap at 16 bits |
| Alu.IncDec | i8088.py:1478-1497 | the stored value wraps; Z, O, S and P follow it; C is kept; only O, A, S, Z, P change |
| Alu.IncDecInverse | i8088.py:1478-1497 | DEC undoes INC and INC undoes DEC |
| Alu.MulWordAsWrittenOverflowsAH | i8088.py:1595-1603 | MUL 0x100 * 0x100 as written leaves 0x100 in AH; the corrected rule leaves AX = 0 |
| Alu.Mul | i8088.py:1590-1620 | the byte form leaves the product in AX, the word form in DX:AX, and C=O is set iff the upper half is non-zero |
| Alu.MulMeaning | i8088.py:1590-1620 | without the REP quirk the stored halves are exactly the product |
| Alu.Div | i8088.py:1656-1681 | DIV traps iff the divisor is 0 or the quotient does not fit; otherwise quotient and remainder are in range |
| Alu.DivMeaning | i8088.py:1656-1681 | DIV traps iff the dividend is at least width * divisor, and the quotient and remainder rebuild the dividend |
| Alu.ShiftStep | i8088.py:1272-1413 | one step of ROL, ROR, RCL, RCR, SHL, SHR or SAR keeps the value within the operand width |
| Alu.ShiftIterate | i8088.py:1272-1413 | the shift loop run n times keeps the value within the operand width |
| Alu.RotateInverse | i8088.py:1272-1337 | ROR undoes ROL, and RCR undoes RCL including the carry |
| Alu.SarSign | i8088.py:1401 | SAR re-inserts the original sign bit or nothing |
| Alu.ShlMultiplies | i8088.py:1339-1352 | SHL by n multiplies by 2^n modulo the width |
| Alu.ShrDivides | i8088.py:1354-1370 | SHR by n divides by 2^n |
| Alu.SarStep | i8088.py:1399-1407 | one SAR step halves the signed value, rounding down, and keeps the sign |
| Alu.SarDivides | i8088.py:1399-1413 | SAR by n is floor division of the signed value by 2^n and never changes the sign |
| CpuCore.PcByte | i8088.py:219-223 | the byte at CS:IP, with IP advanced by one and wrapped within the segment |
| CpuCore.PcWord | i8088.py:225-228 | two byte fetches, IP advanced by two |
| CpuCore.PcWordLittleEndian | i8088.py:225-228 | the fetched word is low byte first; away from offset 0xFFFF it is the memory word at CS:IP |
| CpuCore.GetReg | i8088.py:254-288 | register numbers 0-7 name AX CX DX BX SP BP SI DI (word) or AL CL DL BL AH CH DH BH (byte), and the value fits the width |
| CpuCore.PutReg | i8088.py:413-453 | storing into a register keeps every register within its width |
| CpuCore.PutGetReg | i8088.py:413-453 | a register reads back what was put into it, and the other registers of that width keep their values |
| CpuCore.ByteRegistersAlias | i8088.py:254-288 | AL..BL are the low halves and AH..BH the high halves of AX, CX, DX, BX |
| CpuCore.Mod00Base | i8088.py:511-549 | the base-plus-index sums of rm 0-5 and 7, wrapped to 16 bits |
| CpuCore.Mod00Decoding | i8088.py:511-549 | the table agrees with the bit-field reading of rm (bit 1 picks BX or BP, bit 0 picks SI or DI) |
| CpuCore.Mod00 | i8088.py:511-549 | rm 6 takes a 16-bit address from the instruction stream and consumes two bytes; the others consume none |
| CpuCore.Mod0102 | i8088.py:303-320 | base plus a displacement of one byte (sign-extended) or one word, wrapped to 16 bits, with IP moved past it |
| CpuCore.Mod0102AsWrittenIgnoresSign | i8088.py:318-320 | as written, [BX+SI-1] with BX = 0x10 addresses 0x10F instead of 0x0F |
| CpuCore.DataSegment | i8088.py:327-349 | the override segment when a prefix set one, otherwise SS for BP-based forms and DS for the rest |
| CpuCore.Load | i8088.py:332-351 | a word or byte load fits the operand width |
| CpuCore.Store | i8088.py:405-408 | what is stored is loaded back |
| CpuCore.RegisterMem | i8088.py:323-360 | mod 3 reads a register and fetches nothing; other mods load from the effective address in the data segment after the displacement bytes |
| CpuCore.PutRegisterMem | i8088.py:468-508 | mod 3 puts the value into register `reg` and nothing else changes; mods 0-2 step IP past the same displacement as the read and store the value at the data-segment address the read uses, two cycles cheaper than the read |
| CpuCore.UpdateRegisterMem | i8088.py:403-411 | a memory operand is written back at its address for 4 cycles; a register operand goes to the register |
| CpuCore.UpdateReadsBack | i8088.py:323-411 | writing back to the operand just read makes that operand read the new value and consumes no instruction bytes |
| CpuCore.SpDown | i8088.py:562 | SP minus 2 wrapped to 16 bits |
| CpuCore.SpUp | i8088.py:567 | SP plus 2 wrapped to 16 bits |
| CpuCore.Push | i8088.py:561-563 | SP drops by two and the word at SS:SP is the pushed value |
| CpuCore.Pop | i8088.py:565-568 | SP rises by two; the value is a word |
| CpuCore.PushPopRoundTrip | i8088.py:561-568 | a pop right after a push returns the pushed word and restores SP |
| CpuCore.PushAsWrittenLeavesRange | i8088.py:562 | as written, a push with SP = 0 leaves SP = -2; the wrapping push lands at 0xFFFE |
| CpuCore.PushFrame | i8088.py:577-584 | the three interrupt pushes move SP down by six |
| CpuCore.PushKeeps | i8088.py:561-563 | a push leaves the words at the old top of stack and above it unchanged |
| CpuCore.PushFrameReads | i8088.py:577-584 | from the new top of stack the frame reads return address, CS, FLAGS, and three pops reach the old SP |
| CpuCore.Interrupt | i8088.py:570-592 | interrupt entry keeps registers and memory well formed |
| CpuCore.Iret | i8088.py:756-763 | IRET pops IP, CS and FLAGS, then FixFlags |
| CpuCore.LinearInjective | i8088.py:561-568 | different offsets in one segment are different linear addresses |
| CpuCore.StackWordsApart | i8088.py:561-568 | stack slots two or four bytes apart do not share bytes |
| CpuCore.InterruptFrame | i8088.py:570-592 | IP:CS come from the vector at n*4; the frame holds return address (the REP restart address while a REP runs), CS and FLAGS; I, T, REP and the override are cleared; other registers and flags are kept |
| CpuCore.InterruptEntry | i8088.py:586-591 | after interrupt entry IP is the vector's first word, I and T are clear, and HLT and the clock are untouched |
| CpuCore.IretAfterInterrupt | i8088.py:570-592 | IRET straight after an interrupt restores IP, CS, SP, the general registers and the flags (after FixFlags) |
| CpuCore.IsStringOp | i8088.py:629 | the string opcodes MOVS, CMPS, STOS, LODS, SCAS |
| CpuCore.IsCompareString | i8088.py:718-724 | CMPS and SCAS select REPNZ/REPE |
| CpuCore.PrefixMark | i8088.py:697-709 | a prefix byte records the override register or starts REP with "do nothing" when CX is 0 |
| CpuCore.PrefixSettle | i8088.py:714-730 | after the next byte, F2/F3 record the restart address and REP mode; a segment prefix switches the override on |
| CpuCore.PrefixStep | i8088.py:696-732 | one prefix pass fetches the next byte at CS:IP and advances IP by one |
| CpuCore.RepPrefixEffect | i8088.py:705-727 | F2/F3 select REPNZ/REPE before CMPS/SCAS and REP otherwise, remember the instruction start and note a zero CX |
| CpuCore.SegmentPrefixEffect | i8088.py:697-730 | a segment prefix activates the override with ES, CS, SS or DS |
| CpuCore.PrefixEnd | i8088.py:628-646 | REP stays active only after a string instruction whose REPE/REPNZ condition still holds; a running REP sends IP back to the prefix, a finished one drops the override |
| CpuCore.PrefixEndFrame | i8088.py:628-646 | PrefixEnd changes only REP-active, IP and the override |
| CpuCore.DecCX | i8088.py:608-609 | only CH and CL change |
| CpuCore.DecCXMeaning | i8088.py:608-611 | DecCX is CX - 1 wrapped to 16 bits, and reaches zero exactly from CX = 1 |
| CpuCore.PrefixMustRun | i8088.py:597-626 | without REP the step runs; REP with CX = 0 at the prefix runs nothing and ends; otherwise CX counts down and REP ends at 0 or on an unknown mode |
| CpuCore.RepCountsDown | i8088.py:597-626 | a plain REP with CX > 0 runs the step, CX drops by one, and REP stays active exactly while CX stays above 0 |
| CpuOps.DecodeModRm | i8088.py:973-975 | the mod, reg and rm fields are in range and put back together give the mod/rm byte |
| CpuOps.WrittenBack | i8088.py:403-411 | writing a value back to the decoded operand stores it in exactly that register or memory byte(s) and changes nothing else |
| CpuOps.Jxx | i8088.py:1202-1244 | a conditional jump only moves IP: to the sign-extended short target with 16 cycles when its condition holds, past the displacement with 4 cycles otherwise; memory is untouched |
| CpuOps.Loop | i8088.py:1171-1200 | LOOP, LOOPZ and LOOPNZ change only CX and IP and leave memory alone |
| CpuOps.LoopMeaning | i8088.py:1171-1200 | CX is decremented (wrapping at zero), the branch is taken as LoopStep decides, to the short target with 8 cycles, or falls through with 4 |
| CpuOps.IncDecOp | i8088.py:1478-1499 | INC/DEC of a word register touches only the registers and flags, in 3 cycles |
| CpuOps.IncDecOpMeaning | i8088.py:1478-1499 | the selected register becomes its value plus or minus one modulo 0x10000, every other register is unchanged, and the flags are IncDec's |
| CpuOps.IncDecOpRestores | i8088.py:1478-1499 | an INC followed by the DEC of the same register (or the other way round) restores every register |
| CpuOps.XchgAx | i8088.py:1072-1082 | XCHG AX,reg changes only the general registers, in 3 cycles |
| CpuOps.XchgSwaps | i8088.py:1072-1082 | AX and the named register trade values and all other registers keep theirs |
| CpuOps.XchgTwice | i8088.py:1072-1082 | exchanging twice restores every register |
| CpuOps.SignExtend8 | i8088.py:912-914 | the 0x83 immediate widened to a word keeps its low byte and its signed value |
| CpuOps.Group1Flags | i8088.py:955-958 | the flags after an 0x80-0x83 operation are well formed |
| CpuOps.Group1Exec | i8088.py:918-964 | an 0x80-0x83 operation on a decoded operand leaves valid registers and memory |
| CpuOps.Group1ExecMeaning | i8088.py:918-964 | the flags are the function's add/sub or logic flags; CMP (function 7) stores nothing, every other function stores the width-masked result into exactly the operand |
| CpuOps.Group1 | i8088.py:872-964 | decoding opcode 0x80-0x83 with its mod/rm byte and immediate leaves valid registers and memory |
| CpuOps.CmpIsSubWithoutStore | i8088.py:942-953 | CMP sets the same flags as SUB and stores nothing, while SUB stores the difference; Z is set exactly when the operands are equal and C exactly when the first is below the second |
| CpuOps.SubCompares | i8088.py:242-245 | after a subtraction of two operands of the width, Z is set exactly when they are equal and C exactly when the first is below the second |
| CpuOps.ArithOf | i8088.py:986-1010 | opcodes 0x00-0x03 add and 0x38-0x3B compare |
| CpuOps.ArithFlags | i8088.py:1012-1015 | the flags of an ADD/ADC/SUB/SBB/CMP are well formed |
| CpuOps.ArithCarryMeaning | i8088.py:986-1015 | after an addition C says the true sum (with the carry-in for ADC) does not fit the width; after a subtraction C says the subtrahend (plus the borrow for SBB) exceeds the minuend |
| CpuOps.AddSubExec | i8088.py:966-1029 | a register/operand ADD, ADC, SUB, SBB or CMP leaves valid registers and memory |
| CpuOps.AddSubFlagsMeaning | i8088.py:966-1029 | the direction bit decides which side is the left operand of the flags, and CMP changes nothing but the flags |
| CpuOps.AddSubToRegMeaning | i8088.py:1017-1029 | with the direction bit set the width-masked result goes to the reg-field register, every other register is unchanged and memory is untouched |
| CpuOps.AddSubToOperandMeaning | i8088.py:1017-1029 | with the direction bit clear the width-masked result goes to exactly the rm operand |
| CpuOps.AddSub | i8088.py:966-1029 | decoding one of the ADD/ADC/SUB/SBB/CMP opcodes with its mod/rm byte leaves valid registers and memory |
| CpuOps.NotValue | i8088.py:1576-1579 | NOT gives the value that adds up with the operand to all ones |
| CpuOps.NegValue | i8088.py:1580-1588 | NEG gives the value that adds up with the operand to zero modulo the width |
| CpuOps.NegFlags | i8088.py:1580-1588 | the flags after NEG are well formed |
| CpuOps.NegMeaning | i8088.py:1580-1588 | NEG twice is the identity; C is set exactly for a non-zero operand, Z exactly for zero, O exactly for the most negative value |
| CpuOps.MulExec | i8088.py:1590-1620 | MUL changes only registers, flags and the REP prefix state |
| CpuOps.MulExecMeaning | i8088.py:1590-1620 | a word MUL leaves the full product in DX:AX, a byte MUL the product in AX with DX kept; C and O both say the product does not fit the operand width; the other registers keep their values |
| CpuOps.IMulExec | i8088.py:1622-1654 | IMUL changes only registers, flags and the REP prefix state |
| CpuOps.ProductMagnitude | i8088.py:1622-1654 | a product of two numbers in 0..n lies in 0..n*n (used for the IMUL bounds) |
| CpuOps.SignedProductBounds | i8088.py:1622-1654 | a product of two numbers in -n..n lies in -n*n..n*n |
| CpuOps.SplitSignedProduct | i8088.py:1640-1648 | a signed 32-bit product split into a signed high word and an unsigned low word puts back together, and the low word alone is the product exactly when the product fits 16 bits |
| CpuOps.IMulWordMeaning | i8088.py:1622-1654 | a word IMUL leaves the signed product in DX:AX; C and O say it does not fit a signed word |
| CpuOps.SmallSignedProduct | i8088.py:1622-1639 | a signed byte product fits a signed word, and it fits a signed byte exactly when it lies in -0x80..0x7F |
| CpuOps.IMulByteMeaning | i8088.py:1622-1639 | a byte IMUL leaves the signed product in AX; C and O say it does not fit a signed byte |
| CpuOps.DivExec | i8088.py:1656-1681 | DIV leaves valid registers and memory |
| CpuOps.DivTrapMeaning | i8088.py:1656-1681 | a division by zero or with a too large quotient jumps through interrupt vector 0 with the interrupt and trace flags cleared and the general registers other than SP unchanged |
| CpuOps.DivQuotientMeaning | i8088.py:1656-1681 | otherwise the quotient and remainder land in AX and DX (AL and AH for a byte divide) with quotient times divisor plus remainder equal to the dividend and the remainder below the divisor, and C and O are cleared |
| CpuOps.TestOthers | i8088.py:1547-1720 | the 0xF6/0xF7 group (TEST, NOT, NEG, MUL, IMUL, DIV, IDIV) leaves valid registers and memory |
| CpuOps.SetMoFlags | i8088.py:1372-1397 | the undocumented SETMO sets S and P and clears C, A, Z and O, leaving the other flags alone |
| CpuOps.ShiftResult | i8088.py:1272-1421 | a rotate or shift of any count keeps the value within the operand width and the flags well formed |
| CpuOps.ShiftFlagsAsWritten | i8088.py:1415-1421 | as written, a word result is not masked and Z and P are taken from that unmasked value over all its bits; it agrees with ShiftResult modulo the width |
| CpuOps.ShlAsWrittenWordFlags | i8088.py:1339-1421 | SHL of word 0x8000 by one as written stores 0x10000 with Z and P clear; the corrected rule stores 0 with Z and P set |
| CpuOps.ShrAsWrittenWordParity | i8088.py:1354-1421 | SHR of word 0x0200 by one as written clears P, counting the set bit of 0x100; the corrected rule takes P from the low byte 0 and sets it |
| CpuOps.ShiftLoop | i8088.py:1272-1413 | the bit-by-bit loop of the rotates and shifts computes ShiftIterate |
| CpuOps.ShiftOutcome | i8088.py:1272-1421 | the result of any of the eight modes, SETMO included, stays within the width |
| CpuOps.ShiftExec | i8088.py:1246-1424 | a shift on a decoded operand leaves valid registers and memory |
| CpuOps.ShiftExecMeaning | i8088.py:1246-1424 | the flags are those ShiftOutcome computes and the shifted value is stored into exactly the operand |
| CpuOps.Shift | i8088.py:1246-1424 | decoding opcode 0xD0-0xD3 (count 1 or CL) leaves valid registers and memory |
| CpuOps.ShiftByCount | i8088.py:1339-1413 | SHL by n multiplies by 2^n modulo the width, SHR divides by 2^n, SAR divides the signed value by 2^n rounding down and keeps the sign |
| CpuOps.ShlByOne | i8088.py:1339-1352 | SHL by one: C is the old top bit, O says the top bit changed, and Z, S and P follow the result |
| CpuOps.ShrByOne | i8088.py:1354-1370 | SHR by one: C is the old bottom bit, O is the old top bit, S is clear and Z and P follow the result |
| CpuOps.ShiftByZero | i8088.py:1272-1413 | a count of zero keeps the value and C; SHL and SAR keep every flag, SHR only clears O |
| CpuOps.SetMoMeaning | i8088.py:1372-1397 | SETMO/SETMOC give all ones with S and P set and C, A, Z, O clear, except SETMOC with CL zero, which changes nothing |
| CpuOps.Popf | i8088.py:747-754 | POPF leaves memory alone and costs 12 cycles |
| CpuOps.PoppedFlags | i8088.py:749-752 | the popped flags are fixed up and their trace flag is the word's bit 8 |
| CpuOps.PopfAfterPush | i8088.py:747-754 | PUSH of a flags word followed by POPF restores SP and installs the fixed-up flags, and the back-from-trace answer is true exactly when trace goes from off to on |
| CpuOps.IretOp | i8088.py:756-768 | IRET leaves memory alone, counts 0 cycles (32 // 44) and answers back-from-trace exactly when trace goes from off to on |
| CpuOps.CrashCheck | i8088.py:734-741 | a non-zero opcode resets the counter; opcode 0 counts only when termination is on, and the stop is reported exactly at a count of 5 or more |
| CpuOps.CrashStopIndex | i8088.py:734-741 | the index of the instruction that stops the run lies within the run |
| CpuOps.NullRunStops | i8088.py:734-741 | from a counter c below 5, the (5-c)th consecutive 0x00 opcode stops the run |
| CpuOps.OtherOpcodeResets | i8088.py:740-741 | any other opcode before four 0x00 opcodes resets the count, so they do not stop the run |
| CpuOps.ShortNullRun | i8088.py:734-739 | fewer than five 0x00 opcodes in a row do not stop the run |
| CpuOps.NeverStopsWithoutTerminate | i8088.py:734-735 | without the terminate switch 0x00 opcodes never stop the run |
| CpuOps.ClampCycles | i8088.py:775-776 | a zero cycle count becomes one and any other count is kept |
| CpuOps.Dispatch | i8088.py:744-771 | a modelled opcode runs its handler and leaves valid state; any other is reported as outside the model; only POPF and IRET can answer back-from-trace |
| CpuOps.JccAliasDispatch | i8088.py:1202-1244 | opcodes 0x60-0x6F dispatch exactly as 0x70-0x7F |
| I8088.IrqDelivery | i8088.py:660-672 | a delivered interrupt leaves valid registers, memory and controller state |
| I8088.Prefixes | i8088.py:695-732 | the prefix loop ends on the first byte that is not a segment or REP prefix (or, after a whole segment of prefixes, reports that it never ends; see EndlessPrefixMeaning), keeps the clock and CS, and the opcode it ends on is the byte just before the final IP |
| I8088.ExecuteSpec | i8088.py:734-786 | the null-opcode check followed by the handler leaves a valid processor |
| I8088.RunSpec | i8088.py:743-786 | running the dispatched handler leaves a valid processor |
| I8088.FinishSpec | i8088.py:773-786 | PrefixEnd, the clamp, the clock, io.Tick and the trace trap leave a valid processor |
| I8088.Finished | i8088.py:773-784 | the instruction's cycle count is the clamped total, the clock moves on by exactly that count and io.Tick is given the new clock |
| I8088.TraceTrap | i8088.py:783-784 | the trace trap leaves valid registers and memory and does not move the clock |
| I8088.StepSpec | i8088.py:683-786 | fetch, breakpoint check, prefixes and execution leave a valid processor |
| I8088.TickSpec | i8088.py:655-786 | one Tick leaves a valid processor |
| I8088.TickClock | i8088.py:655-786 | the cycle count a Tick reports is what the clock advanced by; io.Tick was called once with that count and the new clock unless an interrupt was delivered, which costs 60 cycles and skips io.Tick |
| I8088.StepClock | i8088.py:683-786 | an executed instruction advances the clock by the count it reports and makes one io.Tick call with that count and the new clock |
| I8088.ExecuteClock | i8088.py:734-786 | the same for the part of Tick after the prefixes |
| I8088.DeliveryMeaning | i8088.py:660-672 | an interrupt is delivered exactly when I is set, interrupts are not inhibited and the pending level belongs to a device; what is delivered is Delivered of that level |
| I8088.DeliveredMeaning | i8088.py:666-671 | a delivered interrupt ends HLT, costs 60 cycles, marks the level in service and enters vector level plus offset with I and T cleared; the stop reason and the device ticks are untouched |
| I8088.HaltIdles | i8088.py:674-681 | in HLT with nothing to deliver a Tick only lets two cycles pass |
| I8088.BreakpointStops | i8088.py:683-693 | a breakpoint at the instruction start stops Tick after the opcode fetch with memory, controller and devices untouched |
| I8088.IgnoredBreakpointRuns | i8088.py:687-688 | after the skip flag is set the next Tick does not stop at a breakpoint and the flag is cleared |
| I8088.I8088.constructor | i8088.py:9-22 | a new processor has zeroed registers except the always-one flag bit, no breakpoints, no stop reason, and terminate-on-off-the-rails set from the run-I/O switch |
| I8088.I8088.GetPcByte | i8088.py:219-223 | fetches as CpuCore.PcByte says |
| I8088.I8088.Push | i8088.py:561-563 | pushes as CpuCore.Push says |
| I8088.I8088.Pop | i8088.py:565-568 | pops as CpuCore.Pop says |
| I8088.I8088.PushInterruptFrame | i8088.py:577-584 | SP goes down by three words, REP ends, and memory holds the flags, CS and return address frame |
| I8088.I8088.InvokeInterrupt | i8088.py:570-592 | does what CpuCore.Interrupt says, with the controller level marked in service and the vector offset added for a controller interrupt |
| I8088.I8088.IrqClaimed | i8088.py:663-665 | true exactly when some attached device has that IRQ line |
| I8088.I8088.CheckInterrupt | i8088.py:660-672 | delivers exactly what IrqDelivery says, or changes nothing |
| I8088.I8088.Deliver | i8088.py:666-671 | leaves HLT, enters the controller interrupt as CpuCore.Interrupt says with the level marked in service, and adds 60 cycles |
| I8088.I8088.LeaveHaltAndInterrupt | i8088.py:666-668 | leaves HLT and enters the controller interrupt as CpuCore.Interrupt says, with the level marked in service |
| I8088.I8088.ApplyPrefix | i8088.py:696-732 | one pass of the prefix loop does what CpuCore.PrefixStep says |
| I8088.PrefixesOutOfFuel | i8088.py:695-732 | the prefix loop stops without reaching an opcode exactly when the opcode and the next `fuel` bytes at CS:IP are all segment or REP prefixes |
| I8088.PrefixRunShifts | i8088.py:695-732 | a run of prefixes from IP is a prefix at IP followed by a run from IP + 1, with IP wrapping in the segment |
| I8088.EndlessPrefixMeaning | i8088.py:695-732 | when Tick reports EndlessPrefixes, every byte of the code segment is a segment or REP prefix, so the prefix loop never ends |
| I8088.WholeSegment | i8088.py:711-712 | 64 KiB prefix bytes fetched from IP, wrapping, cover every offset of the segment |
| I8088.I8088.PrefixLoop | i8088.py:695-732 | the prefix loop ends where Prefixes says, with its registers, opcode, address and cycles |
| I8088.I8088.PrefixEnd | i8088.py:628-646 | updates the registers as CpuCore.PrefixEnd says |
| I8088.I8088.Execute | i8088.py:734-786 | does what ExecuteSpec says and leaves the controller alone |
| I8088.I8088.Run | i8088.py:743-786 | does what RunSpec says |
| I8088.I8088.Finish | i8088.py:773-786 | does what Finished says and records one io.Tick call |
| I8088.I8088.EndInstruction | i8088.py:773-781 | applies PrefixEnd, clamps the count, adds it to the clock and records the io.Tick call |
| I8088.I8088.TakeTraceTrap | i8088.py:783-784 | does what TraceTrap says |
| I8088.I8088.Step | i8088.py:683-786 | does what StepSpec says |
| I8088.I8088.Tick | i8088.py:655-786 | does what TickSpec says |
| I8088.I8088.RunOrIdle | i8088.py:674-786 | with no interrupt delivered, does what UndeliveredTick says: the interrupt shadow ends, then two idle cycles in HLT or one instruction |
| I8088.I8088.Reset | i8088.py:788-793 | CS:IP becomes F000:FFF0, HLT, the segment override and REP end, and nothing else changes |
| I8088.I8088.GetStopReason | i8088.py:795-798 | returns the stop reason and clears it |
| I8088.I8088.EnterVector | i8088.py:570-592 | enters an interrupt vector as CpuCore.Interrupt says |
| I8088.I8088.LoadVector | i8088.py:586-592 | I and T cleared, IP and CS loaded from the vector's entry in the table at address 0, nothing else changed |
| I8088.InterruptFrameMem | i8088.py:577-584 | the memory with the interrupt frame pushed is valid |
| I8088.InterruptUnfolded | i8088.py:570-592 | an interrupt pushes flags, CS and the return address, clears I and T, ends REP and the override, and loads CS:IP from the vector table entry n*4 |
| Pic.Initial | i8259.py:6-27 | a new controller has every level masked, nothing requested or in service, vector offset 8, no automatic EOI and no initialisation in progress |
| Pic.FirstQualifying | i8259.py:56-59 | the scan stops at the lowest level at or above its start that is requested, not in service and not masked, and every level it passed does not qualify |
| Pic.PendingOf | i8259.py:52-59 | 255 exactly when nothing is requested or a level is in service; otherwise the lowest qualifying level, or no answer (the loop falls off its end) exactly when no level qualifies |
| Pic.Request | i8259.py:64-66 | setting a request bit keeps the register file well formed |
| Pic.Serviced | i8259.py:68-77 | marking a level in service keeps the register file well formed |
| Pic.Read | i8259.py:80-91 | a port read answers a byte |
| Pic.Acknowledge | i8259.py:125-127 | clearing a level keeps the register file well formed |
| Pic.DecodeCommand | i8259.py:94-122 | bit 4 selects ICW1 (bit 0 asks for ICW4, bit 1 means a single controller), otherwise bit 3 selects OCW3 (IRR is read when the low two bits are 2), otherwise OCW2 with EOI in bit 5, specific in bit 6 and the level in bits 0-2 |
| Pic.Eoi | i8259.py:120-136 | an end-of-interrupt keeps the register file well formed |
| Pic.Command20 | i8259.py:95-136 | a port 0x20 write keeps the register file well formed |
| Pic.Write21 | i8259.py:138-162 | a port 0x21 write keeps the register file well formed |
| Pic.Write | i8259.py:94-165 | any port write keeps the register file well formed |
| Pic.InitialMasksAll | i8259.py:10 | on a fresh controller a request never becomes a deliverable level, because every level is masked |
| Pic.RequestBecomesPending | i8259.py:52-66 | a request on an unmasked level that is not in service, with no qualifying lower level and nothing in service, becomes the pending interrupt |
| Pic.ServiceBlocks | i8259.py:52-54 | without automatic EOI a level in service blocks every further interrupt |
| Pic.AutoEoiAcknowledges | i8259.py:73-77 | with automatic EOI servicing clears the level's request and in-service bits at once, frees the controller and leaves other levels alone |
| Pic.NonSpecificEoiEndsService | i8259.py:131-136 | a non-specific EOI (0x20 to port 0x20) after servicing level n clears level n and frees the controller |
| Pic.SpecificEoi | i8259.py:122-129 | a specific EOI (0x60 plus level) clears that level and frees the controller only when that level was in service |
| Pic.Icw1Resets | i8259.py:95-110 | ICW1 starts initialisation, empties IRR, ISR and IMR and records the single-controller and ICW4 bits |
| Pic.BiosInitSequence | i8259.py:94-162 | ICW1 0x13, ICW2 8 and ICW4 9 end initialisation with offset 8 and no automatic EOI, and the next port 0x21 write is the mask |
| Pic.NoIcw4MaskTakenAsIcw4 | i8259.py:139-160 | after ICW1 without the ICW4 bit on a single controller the mask write that follows ICW2 is taken as ICW4 and the mask stays clear |
| Pic.Ocw3SelectsRead | i8259.py:113-115 | after OCW3 port 0x20 reads IRR exactly when the low two bits were 2 (ISR otherwise) and port 0x21 still reads the mask |
| Pic.MaskRoundTrip | i8259.py:161-162 | outside initialisation a mask written to port 0x21 reads back unchanged |
| Pic.I8259.constructor | i8259.py:6-27 | the object starts in the initial state |
| Pic.I8259.GetIRQNumber | i8259.py:30-31 | the controller has no IRQ line of its own |
| Pic.I8259.RegisterDevice | i8259.py:48-50 | the controller claims ports 0x20 and 0x21 |
| Pic.I8259.GetAddressList | i8259.py:174-175 | no memory range |
| Pic.I8259.Ticks | i8259.py:186-187 | the controller does not want Tick |
| Pic.I8259.ReadByte | i8259.py:182-183 | a memory read answers 0xEE |
| Pic.I8259.GetInterruptLevel | i8259.py:61-62 | the level of the last OCW2 |
| Pic.I8259.GetInterruptMask | i8259.py:170-171 | the mask as a byte whose bit i is set exactly when level i is masked |
| Pic.I8259.GetInterruptOffset | i8259.py:167-168 | the vector offset |
| Pic.I8259.GetPendingInterrupt | i8259.py:52-59 | the scanning loop computes PendingOf |
| Pic.I8259.RequestInterruptPIC | i8259.py:64-66 | updates the registers as Request says |
| Pic.I8259.SetIRQBeingServiced | i8259.py:68-77 | updates the registers as Serviced says |
| Pic.I8259.IO_Read | i8259.py:80-91 | answers as Read says |
| Pic.I8259.IO_Write | i8259.py:94-165 | updates the registers as Write says and answers True |
| Pic.I8259.WriteCommand | i8259.py:95-136 | updates the registers as Command20 says |
| Pic.I8259.EndOfInterrupt | i8259.py:120-136 | updates the registers as Eoi says |
| Pic.I8259.WriteData | i8259.py:138-162 | updates the registers as Write21 says |
| Device.Scheduled | device.py:60-61 | the new delay joins the end of the list and the delays already there keep their places |
| Device.CheckScheduled | device.py:63-69 | with an empty list nothing fires; otherwise only the head counts down, and it fires (and leaves the list) exactly when it reaches zero or below |
| Device.CheckRepeated | device.py:63-69 | n checks fire at most n times |
| Device.ScheduleKeepsHead | device.py:60-69 | scheduling behind a non-empty list changes neither the answer of the next check nor its effect on the head |
| Device.DelayFiresOnTime | device.py:63-69 | a delay d checked every c cycles fires on the first check k with k*c >= d and on no earlier check |
| Device.DeviceBase.constructor | device.py:4-8 | no pending delays and clock 0 |
| Device.DeviceBase.ScheduleInterrupt | device.py:60-61 | updates the list as Scheduled says |
| Device.DeviceBase.CheckScheduledInterrupt | device.py:63-69 | updates the list and answers as CheckScheduled says |
| Device.DeviceBase.Tick | device.py:49-51 | records the clock and answers False |
| Device.DeviceBase.GetWaitStateCycles | device.py:30-31 | no wait states |
| Memory.Memory.constructor | memory.py:5-6 | size bytes, all 255 |
| Memory.Memory.ReadByte | memory.py:9-10 | the stored byte |
| Memory.Memory.WriteByte | memory.py:13-14 | exactly the addressed byte changes, and reads back as written |
| Memory.Memory.GetAddressList | memory.py:29-30 | the single range from 0 of the memory's size |
| Memory.Memory.IO_Read | memory.py:21-22 | ports read 0xFF |
| Memory.Memory.IO_Write | memory.py:33-34 | port writes answer False |
| Memory.Memory.GetIRQNumber | memory.py:25-26 | no IRQ line |
| Memory.Memory.Ticks | memory.py:41-42 | memory does not want Tick |
| Rom.Load | rom.py:5-13 | the signature test raises IndexError exactly for an empty image or a one-byte image starting 0x55; otherwise the image and its offset are kept, and the signature check is true exactly when the first two bytes are 0x55 0xAA |
| Rom.ReadByte | rom.py:16-17 | the image byte at the address minus the offset |
| Rom.WriteByte | rom.py:24-25 | writes leave the image as it was |
| Rom.GetAddressList | rom.py:28-29 | the one range from the offset of the image's length |
| Rom.ReadsImage | rom.py:16-25 | every image byte i is read at offset plus i, whatever was written before |
| Rom.IO_Read | rom.py:32-33 | ports read 0xFF |
| Rom.IO_Write | rom.py:40-41 | port writes answer False |
| Rom.GetIRQNumber | rom.py:36-37 | no IRQ line |
| Rom.Ticks | rom.py:48-49 | a ROM does not want Tick |
| Bus.EntryFor | bus.py:34-38 | the entry for a (start, length) segment covers exactly [start, start + length) and carries the device's wait states |
| Bus.SegmentEntries | bus.py:32-39 | one entry per segment, in the segment order |
| Bus.DeviceEntries | bus.py:30-39 | every entry built from the devices belongs to one of them and carries its wait states |
| Bus.RomEntries | bus.py:45-46 | one entry per ROM, in ROM order, covering the ROM's image without wait states |
| Bus.RamEntry | bus.py:48-49 | the RAM entry covers exactly [0, size) without wait states |
| Bus.BuildCacheWellFormed | bus.py:41-49 | in the rebuilt cache every RAM entry covers exactly the RAM and every ROM entry exactly its image |
| Bus.FirstMatch | bus.py:56-57 | the lookup finds the first entry covering the address, or none when no entry covers it |
| Bus.WriteSpec | bus.py:62-69 | a write keeps the RAM's size |
| Bus.CacheOrder | bus.py:41-49 | the cache holds the devices' entries, then the ROMs', then RAM, and the RAM entry is last |
| Bus.DeviceEntryPresent | bus.py:30-39 | every segment of every device is in the cache |
| Bus.DeviceShadowsRam | bus.py:41-58 | an address in a device's segment is served by a device entry, never by a ROM or RAM |
| Bus.RomShadowsRam | bus.py:41-58 | with no device in the way, an address inside a ROM is served by a ROM entry and not by RAM |
| Bus.RamOrNothing | bus.py:55-69 | with no device or ROM in the way, an address inside RAM reads the RAM byte without wait states, and one outside reads 0xFF with one wait state and a write there changes nothing and costs one |
| Bus.RamRoundTrip | bus.py:55-69 | a byte written to a RAM-served address reads back as written, no device sees the write and the other RAM bytes keep their values |
| Bus.XtLayout | bus.py:41-60 | with the MDA window, the BIOS ROM at 0xFE000 and 1 MiB of RAM, reads reach the MDA, the ROM, RAM and nothing (0xFF) as their addresses say |
| Bus.Bus.constructor | bus.py:14-22 | a new bus has RAM of the given size, all 255, and its cache built |
| Bus.Bus.AddEntries | bus.py:30-39 | appends one entry per segment |
| Bus.Bus.RecreateCache | bus.py:41-49 | rebuilds the cache as devices, ROMs, then RAM |
| Bus.Bus.ReadByte | bus.py:55-60 | answers as ReadSpec says: the first covering entry's device and wait states, or (0xFF, 1) |
| Bus.Bus.WriteByte | bus.py:62-69 | updates RAM and the device writes as WriteSpec says and answers its wait states |
| Io.In | io.py:36-54 | test mode answers 65535 without touching a device; an unmapped port answers 0xA5 at 0x210 and all ones otherwise; a byte access to a mapped port answers that device's IO_Read |
| Io.WordIn | io.py:40-49 | a word IN over two mapped ports reads the port and then the next one (wrapping at 0x10000) in that order and joins them low byte first |
| Io.Out | io.py:62-78 | test mode and unmapped ports answer False without touching a device; a byte OUT hands the low byte to the port's device and answers what it answers |
| Io.WordOutSplit | io.py:68-76 | a word OUT hands the low byte to the port and the high byte to the next port, answers the OR of their answers, and the two bytes join back into the word |
| Io.TickAll | io.py:56-60 | with no tick devices Tick answers False |
| Io.TickAnswers | io.py:56-60 | one answer per tick device |
| Io.TickIsAny | io.py:56-60 | Tick answers True exactly when some tick device answered True |
| PcIo.Register | pc_io.py:27-28 | a device's registration claims all its ports for it and leaves every other port's owner alone |
| PcIo.LastRegistrantWins | pc_io.py:27-28 | a port is mapped exactly when some device lists it, and then to the last device that lists it |
| PcIo.TickFilter | pc_io.py:15-22 | the tick list names devices of the caller's list |
| PcIo.TickFilterExact | pc_io.py:15-22 | the tick list holds exactly the devices whose Ticks answers True, in device order |
| PcIo.ChipsetPortsWin | pc_io.py:24-28 | the DMA controller's ports and the interrupt controller's ports belong to them, whatever the other devices registered |
| PcIo.IO.constructor | pc_io.py:8-32 | picks the tick devices, appends the DMA and interrupt controllers and builds the port map in registration order |
| PcIo.IO.In | pc_io.py:37-57 | answers and updates the devices as Io.In says |
| PcIo.IO.Out | pc_io.py:65-83 | answers and updates the devices as Io.Out says |
| PcIo.IO.Tick | pc_io.py:59-63 | ticks the tick devices in order as Io.TickAll says |
| I8237.Initial | i8237.py:48-64 | a new controller is enabled with every channel unmasked, no TC, zero addresses and counts and the flip-flop low |
| I8237.PutByte | i8237.py:23-32 | a byte load replaces the high byte when the flip-flop was high and the low byte otherwise, keeping the other byte |
| I8237.GetByte | i8237.py:40-46 | a byte read gives the high byte when the flip-flop was high and the low byte otherwise |
| I8237.Read | i8237.py:93-104 | a port read answers a byte and keeps the registers well formed |
| I8237.ReadStatus | i8237.py:99-103 | the status read answers a byte and keeps the registers well formed |
| I8237.FlagsWordSnoc | i8237.py:100-103 | adding channel i's TC bit adds 2^i to the status byte when it is set |
| I8237.StatusStep | i8237.py:100-103 | the status loop's byte after channel i is the byte before it plus channel i's bit |
| I8237.PageChannel | i8237.py:138-145 | ports 0x87, 0x83, 0x81 and 0x82 select the page registers of channels 0 to 3 |
| I8237.Write | i8237.py:111-147 | a port write keeps the registers well formed |
| I8237.WriteChannel | i8237.py:112-116 | an address or count byte write keeps the registers well formed |
| I8237.WriteControl | i8237.py:117-137 | a control port write keeps the registers well formed |
| I8237.FullAddress | i8237.py:159-160 | a channel's bus address is its page in bits 16-19 over its 16-bit address |
| I8237.Advance | i8237.py:159-170 | after a transfer the channel's TC is set exactly when it was set already or the count was zero |
| I8237.Refreshed | i8237.py:83-90 | the refresh step keeps the registers well formed |
| I8237.RefreshStep | i8237.py:83-90 | a refresh of n cycles is a refresh of n - 1 cycles followed by one channel-0 transfer |
| I8237.RefreshedIsTransfers | i8237.py:83-90 | a refresh of n cycles is exactly n channel-0 transfers |
| I8237.RefreshedMeaning | i8237.py:83-90 | after n refresh cycles channel 0's address is up by n and its count down by n, both modulo 0x10000; its TC is set exactly when it already was or the count was below n; channels 1-3, the pages, masks, modes and control state are unchanged |
| I8237.LoadThenRead | i8237.py:23-46 | from a cleared flip-flop, writing a register low byte then high byte stores the word, and two reads give the two bytes back in order and leave the flip-flop cleared |
| I8237.SharedFlipFlop | i8237.py:56-61 | the one flip-flop is shared: a byte to channel 0's address followed by a byte to channel 1's count lands in the count's high byte |
| I8237.StatusRead | i8237.py:99-103 | the status byte has bit i set exactly when channel i reached TC, and reading it clears every TC bit and changes nothing else |
| I8237.PagesAndReset | i8237.py:128-145 | the page ports store the low nibble in the page of their channel, and a master reset masks every channel and clears the flip-flop |
| I8237.AdvanceN | i8237.py:159-170 | n transfers keep the registers well formed |
| I8237.TransfersWhileCounting | i8237.py:149-172 | a ready channel with count c stays ready through c transfers at consecutive addresses, its count falling by one each time |
| I8237.TcAfterCountPlusOne | i8237.py:149-172 | a channel loaded with count c makes exactly c + 1 transfers before TC stops it |
| I8237.I8237.constructor | i8237.py:48-64 | starts in the initial state, on the given bus |
| I8237.I8237.GetIRQNumber | i8237.py:67-68 | no IRQ line |
| I8237.I8237.GetAddressList | i8237.py:205-206 | no memory range |
| I8237.I8237.Ticks | i8237.py:217-218 | the controller does not want Tick |
| I8237.I8237.ReadByte | i8237.py:213-214 | a memory read answers 0xEE |
| I8237.I8237.RegisterDevice | i8237.py:75-81 | claims ports 0x00-0x0F and 0x81, 0x82, 0x83, 0x87 |
| I8237.I8237.IsChannelTC | i8237.py:174-175 | the channel's TC bit; a channel at TC does not transfer |
| I8237.I8237.GetFlipFlop | i8237.py:10-13 | answers the old flip-flop state and toggles it |
| I8237.I8237.IO_Read | i8237.py:93-104 | answers and updates the registers as Read says |
| I8237.I8237.ReadStatusRegister | i8237.py:99-103 | the status loop computes ReadStatus |
| I8237.I8237.IO_Write | i8237.py:111-147 | updates the registers as Write says and answers False |
| I8237.I8237.WriteChannelRegister | i8237.py:112-116 | updates the registers as WriteChannel says |
| I8237.I8237.WriteControlRegister | i8237.py:117-137 | updates the registers as WriteControl says |
| I8237.I8237.SetAllMasks | i8237.py:135-137 | the multiple-mask loop sets channel i's mask from bit i |
| I8237.I8237.ClearTc | i8237.py:124-125 | clears every TC bit |
| I8237.I8237.ResetMasks | i8237.py:106-108 | sets every mask to the given state |
| I8237.I8237.TickChannel0 | i8237.py:83-90 | updates the registers as Refreshed says |
| I8237.I8237.ReceiveFromChannel | i8237.py:149-172 | a channel that is disabled, masked or at TC answers -1 and nothing changes; otherwise the byte at the channel's full address is read through the bus and the channel advances |
| I8237.I8237.SendToChannel | i8237.py:178-202 | a channel that is disabled, masked or at TC answers False and nothing changes; otherwise the byte is written through the bus at the channel's full address, the channel advances and the answer is True |
| I8237.I8237.AdvanceChannel | i8237.py:161-170 | the channel's address moves up by one and its count down by one, both modulo 0x10000, and TC is set when the count passes below 0 |
| I8253.Programmed | i8253.py:161-174 | access mode 0 leaves the counter alone; any other stops it, clears its initial count, takes the mode, BCD flag and access mode, and expects two bytes for access mode 3 and one otherwise |
| I8253.CommandAsWritten | i8253.py:155-174 | as written: access mode 0 changes nothing, and a non-zero access mode for counter 3 raises IndexError |
| I8253.CounterThreeRaises | i8253.py:156-162 | as written, the mode bytes 0xF0 and 0xD6 stop the program with IndexError |
| I8253.Command | i8253.py:155-174 | only the selected counter is reprogrammed, as Programmed says; counter 3 is ignored; wherever the code as written does not raise, the result agrees with it |
| I8253.WithLow | i8253.py:101-102 | replacing the low byte of a 16-bit count keeps its high byte |
| I8253.WithHigh | i8253.py:104-105 | replacing the high byte of a 16-bit count keeps its low byte |
| I8253.Load | i8253.py:98-121 | with no byte expected nothing changes; the last expected byte starts the counter from the new initial count and clears pending; an earlier byte only counts down the bytes expected |
| I8253.LowByte | i8253.py:130-132 | the low byte of the count, with only bit 0 changed when flipped |
| I8253.NoisyLow | i8253.py:124-132 | remembers the count as the previous one and answers its low byte, bit 0 possibly flipped only when the count moved by two or more |
| I8253.ReadCounter | i8253.py:134-153 | a read answers a byte, leaves the count, initial count and running state alone, and counts down the bytes expected, starting over from the access width at the last one |
| I8253.WordLoadAndReadBack | i8253.py:98-174 | after access mode 3, a low and a high byte start the counter at lo + 256 * hi, and two reads give lo then hi and leave two bytes expected again |
| I8253.ByteLoad | i8253.py:98-121 | after access mode 1, one byte starts the counter at that byte, not pending |
| I8253.Wraps | i8253.py:196-198 | a count below zero has wrapped exactly when it is at least 0x10000 below zero |
| I8253.Step | i8253.py:190-213 | a step keeps each counter's initial count, mode and running state |
| I8253.StepStaysInWindow | i8253.py:194-209 | outside mode 1 a running counter stays in (-0x10000, ini], and it fires exactly when the steps take it 0x10000 below zero |
| I8253.FullPeriod | i8253.py:194-213 | with initial count 0, a counter at 0 does not fire after 0xFFFF steps, fires after 0x10000, and is back at 0 and pending |
| I8253.SmallOvershootNotReloaded | i8253.py:196-200 | a counter loaded with 100 that runs 5 steps past zero sits at -5, neither reloaded nor made pending |
| I8253.StepAll | i8253.py:190-213 | Tick steps each of the three counters the same number of steps |
| I8253.OnlyCounterZeroPends | i8253.py:211-213 | only counter 0 becomes pending, and exactly when it fires |
| I8253.I8253.constructor | i8253.py:22-29 | three idle counters and no carried cycles, wired to the given PIC |
| I8253.I8253.GetIRQNumber | i8253.py:40-41 | IRQ 0 |
| I8253.I8253.Ticks | i8253.py:177-178 | the timer wants Tick |
| I8253.I8253.RegisterDevice | i8253.py:48-52 | claims ports 0x40-0x43 |
| I8253.I8253.GetAddressList | i8253.py:83-84 | no memory range |
| I8253.I8253.ReadByte | i8253.py:91-92 | a memory read answers 0xEE |
| I8253.I8253.LatchCounter | i8253.py:98-121 | loads the byte into counter nr as Load says, the others unchanged |
| I8253.I8253.GetCounter | i8253.py:134-153 | reads counter nr as ReadCounter says, the others unchanged |
| I8253.I8253.IO_Read | i8253.py:55-65 | ports 0x40-0x42 read their counter; any other port answers 0xAA and changes nothing |
| I8253.I8253.IO_Write | i8253.py:68-80 | ports 0x40-0x42 load their counter, 0x43 takes a mode byte as Command says, other ports change nothing; the answer is whether any counter is pending |
| I8253.I8253.Tick | i8253.py:181-220 | below four cycles they only accumulate; otherwise every counter takes clock / 4 steps as StepAll says, the remainder is kept, and IRQ 0 is requested from the PIC exactly when counter 0 fires |
| Keyboard.Push | keyboard.py:20-23 | the code joins the end of the FIFO and one interrupt, KEY_IRQ_DELAY cycles away, is scheduled behind those pending; nothing else changes |
| Keyboard.Write | keyboard.py:35-52 | only port 0x61 changes anything: the byte is remembered, bit 6 low pulls the clock low, bit 6 high after a low clock empties the FIFO down to 0xAA and schedules the reset interrupt, bit 7 clears the last code |
| Keyboard.Read | keyboard.py:55-71 | port 0x60 dequeues and remembers the head code, or repeats the last code on an empty FIFO; 0x61 echoes the last write, 0x64 answers 0x10, any other port 0, and only 0x60 changes the state |
| Keyboard.TickSpec | keyboard.py:90-94 | with bit 7 of port 0x61 set nothing happens; otherwise the head delay counts down as the device base does and the answer is whether it elapsed |
| Keyboard.ReadCodes | keyboard.py:56-63 | n reads of port 0x60 give n codes |
| Keyboard.PushAllAppends | keyboard.py:20-23 | pushed codes land at the end of the FIFO in order, each with one scheduled interrupt |
| Keyboard.ReadsInQueueOrder | keyboard.py:56-63 | n reads of port 0x60 return the first n queued codes in order and leave the rest queued |
| Keyboard.FifoOrder | keyboard.py:20-63 | codes pushed into an empty FIFO are read back in the order pushed, leaving it empty |
| Keyboard.ResetHandshake | keyboard.py:36-47 | clock low then clock high leaves exactly the reply 0xAA queued, with its interrupt behind those pending, and the next read of port 0x60 returns it |
| Keyboard.AcknowledgeClearsRepeat | keyboard.py:49-63 | with an empty FIFO a read repeats the last code until a write with bit 7 set clears it to 0 |
| Keyboard.Keyboard.constructor | keyboard.py:6-14 | starts with an empty FIFO, clock high, no code, nothing scheduled, wired to the given PIC |
| Keyboard.Keyboard.GetIRQNumber | keyboard.py:17-18 | IRQ 1 |
| Keyboard.Keyboard.RegisterDevice | keyboard.py:30-32 | claims no ports (the PPI forwards them) |
| Keyboard.Keyboard.Ticks | keyboard.py:86-87 | the keyboard wants Tick |
| Keyboard.Keyboard.PushKeyboardScancode | keyboard.py:20-23 | updates the state as Push says |
| Keyboard.Keyboard.IO_Write | keyboard.py:35-52 | updates the state as Write says and answers False |
| Keyboard.Keyboard.IO_Read | keyboard.py:55-71 | answers and updates the state as Read says |
| Keyboard.Keyboard.Tick | keyboard.py:90-94 | updates the state as TickSpec says, requests IRQ 1 from the PIC exactly when TickSpec says the delay elapsed, and answers False |
| Ppi.Read | i8255.py:42-58 | port 0x60 shows SW1 when selected, port 0x62 the switch nibble bit 3 chose, port 0x63 the mode 0x99; every other read is the keyboard's, with the keyboard's state change |
| Ppi.Write | i8255.py:60-80 | port 0x61 takes the nibble choice from bit 3, deselects SW1 and falls through to the keyboard; port 0x63 is dropped; other ports go to the keyboard; the answer is False |
| Ppi.SwitchNibbles | i8255.py:46-53 | reading port 0x62 after writing port 0x61 with bit 3 clear and then set gives the low and high nibbles, which together make the switch byte |
| Ppi.KeyboardSeesPortB | i8255.py:61-80 | a port 0x61 write reaches the keyboard too |
| Ppi.I8255.constructor | i8255.py:6-21 | starts with the low nibble selected and SW1 not shown, forwarding to the given keyboard |
| Ppi.I8255.GetIRQNumber | i8255.py:27-28 | no IRQ line |
| Ppi.I8255.RegisterDevice | i8255.py:35-39 | claims ports 0x60-0x63 |
| Ppi.I8255.Ticks | i8255.py:91-92 | the PPI does not want Tick |
| Ppi.I8255.IO_Read | i8255.py:42-58 | answers, and updates the keyboard, as Read says |
| Ppi.I8255.IO_Write | i8255.py:60-80 | updates its state and the keyboard's, and answers, as Write says |
| Mda.Offset | mda.py:44 | a bus address selects an index inside the 16 KiB video memory |
| Mda.WindowMirrors | mda.py:26-44 | both 16 KiB halves of the 32 KiB window show the same memory, indexed from 0xB0000 |
| Mda.OffsetPeriodic | mda.py:44 | bus addresses 16 KiB apart select the same video-memory byte |
| Mda.CellAsWritten | mda.py:63-75 | as written: outside the 4000 screen bytes nothing is redrawn; inside, the character is the byte at the written offset and the attribute the byte after it |
| Mda.AttributeWriteShowsWrongPair | mda.py:70-73 | as written, writing an attribute byte redraws its cell with the attribute as character and the next cell's character as attribute |
| Mda.Cell | mda.py:63-75 | outside the 4000 screen bytes nothing is redrawn; on a character offset the cell agrees with the code as written |
| Mda.CellIsThePair | mda.py:63-75 | whichever byte of the cell at column x, row y is written, the redrawn cell is (x, y) with that cell's character and attribute |
| Mda.Colours | mda.py:52-58 | the terminal background colour (SGR 40 + n) from attribute bits 4-6 and the foreground colour (SGR 30 + n) from bits 0-2, each through the palette, and bright from bit 3 |
| Mda.PaletteInvolution | mda.py:52 | the palette maps 0-7 into 0-7 and is its own inverse |
| Mda.MDA.constructor | mda.py:5-7 | 16 KiB of memory filled with 0xFF, sync low |
| Mda.MDA.GetIRQNumber | mda.py:16-17 | no IRQ line |
| Mda.MDA.RegisterDevice | mda.py:20-22 | claims ports 0x3B0-0x3BF |
| Mda.MDA.GetAddressList | mda.py:25-26 | one range, 0x8000 bytes at 0xB0000 |
| Mda.MDA.Ticks | mda.py:82-83 | the adapter wants Tick |
| Mda.MDA.IO_Write | mda.py:29-30 | port writes are ignored and answer False |
| Mda.MDA.IO_Read | mda.py:33-40 | port 0x3BA answers 9 and 0 in turn, toggling the sync; any other port answers 0 and changes nothing |
| Mda.MDA.ReadByte | mda.py:78-79 | the byte at the address's offset |
| Mda.MDA.WriteByte | mda.py:43-47 | stores the byte at the address's offset, visible through both mirrors, leaves every other offset alone, and returns the cell Cell says is redrawn |
| Mda.MDA.UpdateConsole | mda.py:63-75 | returns the cell Cell says is redrawn |
| Mda.MDA.Tick | mda.py:86-88 | records the clock and answers False |
| XtIde.WordsToBytes | xtide.py:20-24 | each pushed word becomes two buffer bytes |
| XtIde.WordsToBytesRoundTrip | xtide.py:20-24 | the pushed bytes are bytes, and pairing them low byte first gives back every word pushed |
| XtIde.StringWords | xtide.py:26-33 | a string of length characters becomes length / 2 words, each the pair of characters with the earlier one in the high byte |
| XtIde.IdentifyWords | xtide.py:46-82 | the IDENTIFY DRIVE block is 256 16-bit words |
| XtIde.IdentifyLayout | xtide.py:46-82 | the block reports 614 cylinders, 4 heads, 17 sectors of 512 bytes, the serial number in words 10-19, the model name "PyPC" from word 27, LBA support in word 49, and the total sector count in words 57-58 and 60-61 |
| XtIde.IdentifyBlock | xtide.py:43-84 | the block fills exactly one 512-byte buffer |
| XtIde.NextIsNextLba | xtide.py:117-123 | one step of the sector walk moves to the next linear sector |
| XtIde.ChsAfterLba | xtide.py:110-129 | k steps of the sector walk move k linear sectors on |
| XtIde.SectorData | xtide.py:114-115 | a sector read gives at most 512 bytes of the image |
| XtIde.FilledFromDisk | xtide.py:106-130 | when the sectors lie inside the image, READ MULTIPLE fills the buffer with the consecutive image bytes from the addressed sector on |
| XtIde.FilledIsPrefix | xtide.py:110-124 | after k sectors of the walk inside the image, the buffer holds the first k sectors' consecutive image bytes from the addressed sector on, and zeros after them |
| XtIde.ReadPastEndShrinks | xtide.py:114-115 | past the end of the image a short read shrinks the buffer: one sector from an empty image leaves it empty |
| XtIde.StoreAsWritten | xtide.py:234-238 | as written the buffer is appended to the image, which keeps all its old bytes and grows by the buffer |
| XtIde.AppendMissesTarget | xtide.py:234-238 | as written, writing one sector of ones to sector 0 of a two-sector image of zeros leaves sector 0 zero and grows the image to three sectors |
| XtIde.StoreReadBack | xtide.py:234-238 | the corrected store puts the buffer at the byte offset, growing the image only as far as the write reaches, and leaves every other byte alone |
| XtIde.WrittenSectorsReadBack | xtide.py:135-238 | each sector of a stored buffer reads back as written |
| XtIde.DriveOf | xtide.py:36-37 | bit 4 of the drive/head register selects drive 0 or 1 |
| XtIde.Identify | xtide.py:35-84 | drive 1 of a one-drive adapter is refused with ABRT and ERR; otherwise the buffer holds the drive's block, read from the start |
| XtIde.SectorCount | xtide.py:90-102 | the sector count register, 0 meaning 256 |
| XtIde.RegsAfter | xtide.py:110-129 | after k sectors the task file holds the walk's sector and cylinder, and registers 0-2 and 7 are unchanged |
| XtIde.ReadMultiple | xtide.py:89-133 | READ MULTIPLE keeps the adapter state well formed |
| XtIde.ReadMultipleAdvancesAddress | xtide.py:110-129 | after n sectors the task file addresses the linear sector n past the start |
| XtIde.WriteMultiple | xtide.py:135-158 | WRITE MULTIPLE keeps the adapter state well formed |
| XtIde.DataWrite | xtide.py:245-253 | a data-port byte keeps the state well formed and the number of drives |
| XtIde.DataWrites | xtide.py:245-253 | successive data-port bytes keep the state well formed and the number of drives |
| XtIde.DataWritesFill | xtide.py:245-253 | until the buffer is full, the bytes written fill it from the start and nothing reaches the image |
| XtIde.WriteMultipleStores | xtide.py:245-253 | a full buffer of bytes is stored at the target sector of the target drive, and the pending write is cleared |
| XtIde.Command | xtide.py:258-282 | a command byte keeps the adapter state well formed |
| XtIde.Write | xtide.py:241-284 | the byte lands in the port's register, and only the data port can change an image |
| XtIde.Read | xtide.py:209-232 | the data port streams the buffer (0xEE once used up), the error port answers and clears the error, the status port answers the status with DRQ while data remains and resets it to DRDY, and other ports answer their register |
| XtIde.DataReads | xtide.py:214-217 | n data-port reads give n bytes |
| XtIde.DataPortStreams | xtide.py:214-217 | n data-port reads give the next n buffer bytes and advance the offset by n |
| XtIde.IdentifyThenRead | xtide.py:35-84 | after IDENTIFY DRIVE, 512 data-port reads give the block, whose byte pairs are the 256 words |
| XtIde.ReadMultipleDelivers | xtide.py:89-133 | READ MULTIPLE of sectors inside the image, then reading the whole buffer, gives exactly those image bytes in order |
| XtIde.XTIDE.constructor | xtide.py:6-18 | an empty 512-byte buffer, no pending write, zero registers, on the given images |
| XtIde.XTIDE.GetIRQNumber | xtide.py:161-162 | no IRQ line |
| XtIde.XTIDE.RegisterDevice | xtide.py:173-175 | claims ports 0x300-0x30F |
| XtIde.XTIDE.Ticks | xtide.py:287-288 | the adapter does not want Tick |
| XtIde.XTIDE.PushSectorBufferWord | xtide.py:20-24 | stores the word's low then high byte at the offset and moves it on by two |
| XtIde.XTIDE.PushWords | xtide.py:46-82 | the push loop leaves the words' bytes in the buffer |
| XtIde.XTIDE.CMDIdentifyDrive | xtide.py:35-84 | updates the state as Identify says |
| XtIde.XTIDE.CMDReadMultiple | xtide.py:89-133 | the sector loop updates the state as ReadMultiple says |
| XtIde.XTIDE.ReadSectors | xtide.py:110-129 | the sector loop leaves the buffer filled sector by sector along the walk and the task file at the walk's end |
| XtIde.XTIDE.CMDWriteMultiple | xtide.py:135-158 | updates the state as WriteMultiple says |
| XtIde.XTIDE.StoreSectorBuffer | xtide.py:234-238 | stores the buffer in the target drive's image at the target sector |
| XtIde.XTIDE.IO_Read | xtide.py:209-232 | answers and updates the state as Read says |
| XtIde.XTIDE.IO_Write | xtide.py:241-284 | updates the state and the images as Write says, and answers False |

## Left out

- The telnet and VNC front ends, main.py's wiring and driver loop, and the JSON test harness are not part of this model.
- Terminal output is not modelled: MDA escape sequences and all logging prints. `Mda.MDA.WriteByte` returns the redrawn cell instead of printing it.
- File I/O of the disk adapter is not modelled. Each drive image is a byte sequence, and opening, seeking, reading and writing become sequence operations.
- The IDENTIFY serial number, the text of `hash()` of the image file name, is a per-drive constructor parameter.
- `I8253.NoisyLow`: the `random.choice` that may flip bit 0 of a low-byte timer read is the `coin` parameter.
- Thread safety of the keyboard queue is not modelled; the queue is a plain sequence.
- The modelled handlers are `Op_ADD_SUB_ADC_SBC` (00-03, 10-13, 18-1B, 28-2B, 38-3B), `Op_INC_DEC` (40-4F), `Op_Jxx` (60-7F), `Op_CMP_OR_XOR_etc` (80-83), `Op_XCHG_AX` (91-97), POPF (9D), IRET (CF), `Op_shift` (D0-D3), `Op_LOOP` (E0-E2) and `Op_TEST_others` (F6, F7). `I8088.I8088.Tick` stops with `OutsideModel(opcode)` on any other opcode.
- These handlers have bodies in i8088.py but are not modelled; they move data or do nothing and carry no flag arithmetic beyond the modelled ones: `Op_NOP` (816), `Op_ADD_AL_xx` (819), `Op_ADD_AX_xxxx` (839), `Op_MOV_reg_ib` (859), `Op_TEST` (1031), `Op_XCHG` (1054), `Op_fe_ff` (1084), `Op_FWAIT` (1434), `Op_REFT` (1438), `Op_MOV` (1451) and `Op_MOV2` (1501).
- Opcode-table entries whose handlers are not defined in i8088.py, the FPU escape and the `_ops` table itself are not modelled: the constructor fills `self._ops` without ever creating it.
- IDIV is left out because it mixes a float quotient, a floored remainder and an unsigned dividend, with no single evident intended meaning. Only its clearing of C, O and REP is modelled.
- The REP prefix's negation of the IDIV result is not modelled, together with IDIV; MUL and IMUL model it.
- `CpuOps.IncDecOpMeaning` promises the 8088 rule: the register wraps at 16 bits and P comes from the low byte. As written, i8088.py:1489-1495 stores the unmasked value and counts P over all of its bits; see the INC/DEC rows under Findings (`Alu.IncAsWrittenParity`, `Alu.DecZeroAsWrittenHangs`, `Alu.IncAsWrittenAtTop`).
- `CpuOps.ShiftExecMeaning` promises the 8088 rule for word shifts: the value is masked to 16 bits, Z follows the masked value and P its low byte. As written, i8088.py:1415-1421 does none of this for words; see `CpuOps.ShiftFlagsAsWritten` and the shift row under Findings.
- `CpuOps.ShlByOne` states the masked 8088 result with Z and P of the masked value; as written, a word SHL of 0x8000 stores 0x10000 with Z and P clear (`CpuOps.ShlAsWrittenWordFlags`).
- `CpuOps.ShrByOne` states P from the low byte of the result; as written, P of a word SHR counts all 16 bits (`CpuOps.ShrAsWrittenWordParity`).
- NOT (`~r1`, i8088.py:1578), NEG (`-r1`, 1587) and the word rotates and shifts (1415-1421) store values outside the operand width as written. The model masks each of them to the operand width, as for the ALU write-back row under Findings.
- `CpuOps.IMulExec` masks every IMUL store to AH and DH. As written, IMUL hands the whole signed product to `SetAX` and `SetDX` (1634-1635, 1647) with or without REP, and `SetAX` stores `v >> 8` in AH. So byte IMUL of -1 by 1 leaves AH = -1, word IMUL of 0x7FFF by 0x7FFF leaves AH = 0x3FFF00, and any negative word product leaves DH = -1.
- `CpuOps.MulExec` masks the MUL stores too. As written, a word MUL whose product reaches 0x10000 spills into AH (the MUL row under Findings), and with the REP negation (1600, 1612) a word or byte MUL stores a negative product. A byte MUL without REP always stores in range.
- `Alu.Div`: the `/` float division of DIV is modelled as the integer quotient and remainder. Floating point is not modelled. As written, a word DIV that does not trap raises TypeError, because `SetAX(dx_ax / r1)` (i8088.py:1669) hands a float to `SetAX`, which shifts it with `>>`. A byte DIV that does not trap stores a float in AL (1680). The model stores the integer quotient in both cases.
- Cycle counts are the source's constants. IRET costs `32 // 44`, which is 0 cycles, as written; the step then clamps the total to at least 1.
- The print for unimplemented opcodes is not modelled.
- Python name errors (unqualified `GetPcByte`, `_state`, `RepMode` and `_disk_filenames`, and the C-style `(ushort)` cast in i8253.py) are modelled at their evident self-qualified intent.
- The processor reads and writes the register state as `self._state.flags`, `.ip`, `.al`, `.cs` and so on (i8088.py:206, 220-222, 274 and throughout), and state8088.py:70 reads `self.cs` and `self.ip`. `State8088.__init__` defines only the underscored fields (`_flags`, `_ip`, `_al`, ...) and no properties, so as written `I8088.__init__` already raises AttributeError at i8088.py:206. The model reads every `self._state.x` as the field `self._state._x`.
- More unqualified names in i8088.py, each modelled as the `self.` method it evidently means: `_io` (661), `pop()` (749, 760-762), `SetAddSubFlags` (1013, 1015), `ToSigned8` (1181, 1644, 1650, 1707), `ToSigned16` (1628-1629, 1650), `GetPcWord` (318, 1467), and `ReadMemWord` and `ReadMemByte` (390).
- Name errors in io.py, modelled at their evident intent: `i8259()` and `i8237()` call the modules instead of their classes (11-12); `self.b` should be `self._b` (18); the tick list is a local `_tick_devices` (13) that `self._tick_devices` never sees, and Python lists have no `.Add` (21, 23, 24); `_pic` (34), `_test_mode` (37, 63) and `_io_map` (69) lack `self.`.
- memory.py:34 returns the undefined name `false`; `Memory.Memory.IO_Write` answers False.
- In the step function, `MemMask` (i8088.py:684, 711) and `_terminate_on_off_the_rails` (734) are unqualified names; `_ignore_breakpoints` (687-688) is read before it is assigned, so Python raises UnboundLocalError; the breakpoint message names an undefined `check_address` (692); and `_stop_reason` (692, 738) is set as a local, so the stop reason never reaches the object. `I8088.I8088.Step` and `I8088.I8088.Tick` model the evident intent: the address is masked with the object's `_MemMask`, the object's flags are read and cleared, and the stop reason is stored in the object (`I8088.BreakpointStops`, `CpuOps.CrashCheck`).
- `I8237.I8237.ReceiveFromChannel` and `I8237.I8237.SendToChannel` are modelled at their evident intent. As written, i8237.py:170, 189, 195 and 200 name the count and page lists without `self.`. In Python those names are undefined, so a transfer stops with a name error. The model uses the channel's own count and page registers. Each transfer's register update is done after the bus access; it does not depend on the bus, so the order does not change the result.
- The timer-to-DMA refresh coupling (i8253.py:202-204) is left out. It calls `TickChannel0()` without its argument, so it cannot run as written. `I8237.I8237.TickChannel0` is modelled on its own.
- `I8253.Step` keeps the wrap test `(-cur) // 0x10000` as written. A counter that overshoots zero by less than 0x10000 is neither reloaded nor pending (`I8253.SmallOvershootNotReloaded`); the intended behaviour for small initial counts is unclear.
- A code segment made wholly of segment and REP prefix bytes makes the prefix `while` loop of i8088.py:696 run for ever, since it fetches round the segment without end. The model's loop stops after one segment's worth of bytes and reports `EndlessPrefixes`; `I8088.EndlessPrefixMeaning` proves that this happens only for such a segment.
- The breakpoint check happens after the opcode fetch, so IP has already moved past the opcode; this is kept as written.
- The 8259 takes the next port 0x21 write as ICW4 even when ICW1 said none is coming; this is kept as written.
- `Rom.GetAddressList`: rom.py returns a bare `(offset, length)` tuple, which the bus cannot iterate as a list of ranges. It is modelled as the intended one-element list.
- `Bus.ClearMemory` is not modelled: it is declared without `self` and cannot be called on a bus.
- XT-IDE negative seek offsets are not modelled: `XtIde.StoreAt` leaves the image unchanged for a negative offset.
- `XtIde.SectorData` and `XtIde.ReadMultiple`: for a negative LBA (sector number 0 on cylinder 0, head 0) `fh.seek` raises in xtide.py:113-114. The model reads no bytes there, so `XtIde.Splice` drops that sector's 512 bytes from the sector buffer instead of stopping.
- The keyboard delay `4770000/50` is a float in Python and is modelled as the integer 95400.
- `GetName` and `GetState`/`GetStat` are not modelled: they only build text for status displays.
- Device wiring (`SetDma`, `SetPic`, `SetBus`) is fixed at construction: a device that needs the PIC or the bus takes it as a constructor parameter.

## Findings

| source | as written | input that shows it | evidently intended | confidence | as-written member | corrected member |
|---|---|---|---|---|---|---|
| i8088.py:232-243 | the carry is taken from `abs(result)`, so a borrow that gives a small negative result is lost | byte CMP 0,1: result -1, abs 1 < 0x100, C clear | C set on a borrow (result below 0) | high, not executed | Alu.AddSubAsWrittenLosesBorrow | Alu.SubBorrowMeaning |
| i8088.py:238-242 | the sign used for O is taken from `abs(result)` | byte SUB 0,0x81: result -0x81, abs 0x81 has the sign bit, O set although 127 fits | O from the sign of the stored result | high, not executed | Alu.AddSubAsWrittenFalseOverflow | Alu.SubOverflowMeaning |
| i8088.py:555 | logic-op parity is computed over the whole result, not its low byte | word OR giving 0x0100: one set bit overall, low byte 0 (even parity), P cleared | P from the low 8 bits, as on the 8088 | high, not executed | Alu.LogicParityAsWritten | Alu.LogicFlags |
| i8088.py:1177-1186 | LOOP decrements CX without masking and jumps while `cx > 0` | CX = 0: CX becomes -1 and the jump is not taken | CX wraps to 0xFFFF and the jump is taken | high, not executed | Alu.LoopAsWrittenAtZero | CpuOps.LoopMeaning |
| i8088.py:1478-1497 | INC/DEC store the unmasked result | INC of word 0xFFFF stores 0x10000 and clears Z | result wraps to 0 with Z set | high, not executed | Alu.IncAsWrittenAtTop | Alu.IncDecInverse |
| i8088.py:1495 | INC/DEC compute P over the whole unmasked result | INC of word 0x00FF gives 0x100, one set bit: P cleared | P from the low byte of the result (0, even: P set) | high, not executed | Alu.IncAsWrittenParity | Alu.IncDec |
| i8088.py:1495 | DEC passes the unmasked result to SetFlagP, whose loop never ends on a negative value | DEC of 0: SetFlagP(-1) does not return | the result wraps to 0xFFFF and P is set from its low byte | high, not executed | Alu.DecZeroAsWrittenHangs | Alu.IncDecInverse |
| i8088.py:1415-1421 | word shift results are not masked, and Z and P come from the unmasked value over all its bits | SHL word 0x8000 by 1 stores 0x10000 with Z and P clear; SHR word 0x0200 by 1 gives 0x100 with P clear | mask to 16 bits, Z from the masked result, P from its low byte | high, not executed | CpuOps.ShlAsWrittenWordFlags | CpuOps.ShlByOne |
| i8088.py:1595-1603 | word MUL stores the whole product through SetAX, and the high word spills into AH | 0x100 * 0x100 = 0x10000 written to AX | low word to AX, high word to DX | high, not executed | Alu.MulWordAsWrittenOverflowsAH | Alu.MulMeaning |
| i8088.py:318 | the mod 1 displacement byte is added without sign extension | disp8 0xFF adds 255 instead of subtracting 1 | disp8 sign-extended | high, not executed | CpuCore.Mod0102AsWrittenIgnoresSign | CpuCore.Mod0102 |
| i8088.py:562 | push decrements SP without wrapping | SP = 0: SP becomes -2 | SP wraps to 0xFFFE | high, not executed | CpuCore.PushAsWrittenLeavesRange | CpuCore.PushPopRoundTrip |
| i8088.py:403-453 | `UpdateRegisterMem` and `PutRegister` store the value they are given without masking, and the ALU handlers (872-964, 1017-1029) pass them unmasked results | byte ADD 0xFF + 1 stores 0x100 | store the result modulo 0x100 or 0x10000 | high, not executed | Alu.WriteBackAsWrittenOutOfRange | CpuOps.Group1ExecMeaning |
| i8253.py:155-162 | the counter field indexes the three-timer list directly | mode byte 0xF0 (counter 3, access 3) raises IndexError | counter 3 ignored | high, not executed | I8253.CounterThreeRaises | I8253.Command |
| mda.py:63-75 | the cell is redrawn from the written offset and the byte after it | writing the attribute at offset 1 redraws cell 0 with the attribute as character | the character and attribute of the written byte's cell | high, not executed | Mda.AttributeWriteShowsWrongPair | Mda.CellIsThePair |
| xtide.py:234-238 | the image is opened in `a+b` mode, so the write appends at the end whatever the seek chose | WRITE MULTIPLE of sector 0 on a two-sector image grows it to three sectors and leaves sector 0 unchanged | overwrite the target sectors in place | high, not executed | XtIde.AppendMissesTarget | XtIde.WrittenSectorsReadBack |
