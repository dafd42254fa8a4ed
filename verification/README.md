# A verified model of the chipigo CHIP-8 interpreter core

This project models the core of a small CHIP-8 interpreter written in Go:
- the opcode field extraction and the 35 opcode bodies (opcodes.go);
- the fetch, timer and dispatch step `tick`, `init` and `timer_decrement` (cpu.go);
- the 4 KiB memory with its built-in hex font and the ROM copy loop (memory.go);
- the fixed-capacity call stack (structs.go);
- the XOR sprite-row blit `draw_line8`, `clear_screen` and the grid set-up, and the one-key input register (console_io.go);
- the static disassembler's walk and decoder (chip_disasm.go).

The model follows the Go code **as written**, including the places where the code does not do what its comments say:
- The interpreter extracts X with `(op & 0x0F00) >> 16` and Y with `(op & 0x00F0) >> 8`. Both are always 0, so every VX/VY instruction acts on V0. The disassembler uses the correct shifts.
- 8XY4 compares an 8-bit sum with 0xFFFF, so its carry flag is always 0.
- 8XYE computes its flag as `(VX & 0x80) >> 15`, which is always 0.
- FX1E adds the register index X to I, not VX.
- FX29 forms `VX * 5` in 8 bits.
- DXYN draws `op & 0xFF` rows and ignores the collision result: VF is never set.
- FX0A stores into V0 (X is 0) and steps PC back by 2 when no key 0..15 is down.
- 5XYn and 9XYn are dispatched on the top nibble alone, so the low nibble is never checked. With X = Y = 0, every 5XYn skips and no 9XYn does.
- A push on a full stack is silently dropped.

Go's run-time panics become explicit results: `State.Result` is `Ok(machine)` or `Fault(StackUnderflow | OutOfBounds)`. This covers popping an empty stack, indexing memory past 0xFFF, and a screen row outside the grid.

The Dafny modules are:
- `Base`: byte, word and signed-byte types, and wrap-around arithmetic.
- `Memory`, `CallStack`, `Display` and `Input`: the console collaborators.
- `State`: the machine record.
- `Opcodes`: one pure function per `op_*` method.
- `Cpu`: dispatch, `tick`, timers and init.
- `Disasm`: the disassembler.

Registers are a `seq` of 16 bytes, memory a `seq` of 0x1000 bytes, and the screen a 64×32 `seq` of columns. Every `uint8`, `uint16` and `int8` wrap-around is written out as modular arithmetic.

## Model

| member | source | states |
|---|---|---|
| Opcodes.FieldX | opcodes.go:26 | the X field as extracted by the interpreter is 0 for every 16-bit opcode |
| Opcodes.FieldY | opcodes.go:43-44 | the Y field as extracted by the interpreter is 0 for every 16-bit opcode |
| Opcodes.FieldNN | opcodes.go:28 | the low byte, which together with the high byte rebuilds the word |
| Opcodes.FieldNNN | opcodes.go:16 | the twelve bits below the class nibble, which together with that nibble rebuild the word |
| Opcodes.Op00E0 | opcodes.go:7-9 | every one of the 64×32 cells becomes 0 and nothing else in the machine changes |
| Opcodes.Op00EE | opcodes.go:11-13 | it faults exactly when the stack is empty; otherwise PC becomes the popped top entry (truncated to 16 bits), the stack loses exactly that entry, and nothing else changes |
| Opcodes.Op1NNN | opcodes.go:15-18 | PC becomes NNN and nothing else changes |
| Opcodes.Op2NNN | opcodes.go:20-23 | PC becomes NNN; on a non-full stack the current PC is pushed on top; on a full stack the stack is unchanged; nothing else changes |
| Opcodes.Op3XNN | opcodes.go:25-32 | PC advances by 2 (mod 2^16) exactly when VX equals NN; nothing but PC changes |
| Opcodes.Op4XNN | opcodes.go:34-40 | PC advances by 2 exactly when VX differs from NN; nothing but PC changes |
| Opcodes.Op5XY0 | opcodes.go:42-48 | PC advances by 2 exactly when VX equals VY; nothing but PC changes |
| Opcodes.Op9XY0 | opcodes.go:132-138 | PC advances by 2 exactly when VX differs from VY; nothing but PC changes |
| Opcodes.SkipPairsExclusive | opcodes.go:25-48 | for the same state and operands exactly one of 3XNN/4XNN skips, and exactly one of 5XY0/9XY0 skips |
| Opcodes.OpBNNN | opcodes.go:144-146 | PC becomes NNN + V0 (always V0), which stays below 0x1100; nothing else changes |
| Opcodes.Op6XNN | opcodes.go:50-54 | VX becomes NN; all other registers and all other state are unchanged |
| Opcodes.Op7XNN | opcodes.go:56-60 | VX becomes VX + NN modulo 256 (both the no-wrap and the wrap case); no carry is recorded: the registers other than X and all other state are untouched (for X = F, VF itself holds the sum) |
| Opcodes.Op8XY0 | opcodes.go:62-66 | VX becomes VY; nothing else changes |
| Opcodes.Op8XY1 | opcodes.go:68-72 | VX becomes VX OR VY; nothing else changes |
| Opcodes.Op8XY2 | opcodes.go:74-78 | VX becomes VX AND VY; nothing else changes |
| Opcodes.Op8XY3 | opcodes.go:80-84 | VX becomes VX XOR VY; nothing else changes |
| Opcodes.Op8XY4 | opcodes.go:86-96 | VX becomes VX + VY modulo 256, VF becomes 0 whenever X is not F, and all other registers and state are unchanged |
| Opcodes.AddCarryNeverSet | opcodes.go:86-96 | for X ≠ F, 8XY4 never sets VF, even when the true sum exceeds 255 and VX wraps |
| Opcodes.Op8XY5 | opcodes.go:98-107 | VF is set first (1 iff VX > VY) and VX becomes the difference modulo 256; when X, Y or both are F the result reads the overwritten flag, and with both F it is 0; other registers unchanged |
| Opcodes.Op8XY7 | opcodes.go:115-124 | VF is set first (1 iff VY > VX) and VX becomes VY - VX modulo 256, with the same cases for X, Y or both being F; other registers unchanged |
| Opcodes.SubtractEqualOperands | opcodes.go:98-124 | equal operands give result 0 and VF = 0 in both subtractions: the comparison is strict |
| Opcodes.Op8XY6 | opcodes.go:109-113 | for X not F, VF becomes the old low bit of VX and VX its half (2·VX' + VF = VX); for X = F the shift of the just-written bit leaves VF = 0; other registers unchanged |
| Opcodes.Op8XYE | opcodes.go:126-130 | for X ≠ F, VX becomes 2·VX modulo 256 and VF is 0; for X = F the result is 0; the other registers and all other state are unchanged |
| Opcodes.ShiftRoundTrips | opcodes.go:109-130 | a right shift then a left shift restores an even VX; a left then right shift restores VX < 0x80; the right shift's flag is the dropped bit, the left shift's flag is 0 |
| Opcodes.OpANNN | opcodes.go:140-142 | I becomes NNN and nothing else changes |
| Opcodes.OpCXNN | opcodes.go:148-152 | VX becomes the given random byte AND NN; nothing else changes |
| Opcodes.OpFX07 | opcodes.go:177-180 | VX holds the delay timer's byte, reading back as the signed timer value; nothing else changes |
| Opcodes.OpFX15 | opcodes.go:193-196 | the delay timer holds VX reinterpreted as int8, negative exactly when VX ≥ 128; nothing else changes |
| Opcodes.OpFX18 | opcodes.go:198-201 | the sound timer holds VX reinterpreted as int8, negative exactly when VX ≥ 128; nothing else changes |
| Opcodes.DelayTimerRoundTrip | opcodes.go:177-196 | loading the delay timer with FX15 and reading it with FX07 returns the original register byte |
| Opcodes.OpFX1E | opcodes.go:203-213 | I becomes I + X (the register index) modulo 2^16; VF is 1 iff the new I exceeds 0xFFF; other registers and state unchanged |
| Opcodes.OpFX29 | opcodes.go:215-218 | I becomes 5·VX modulo 256; for VX ≤ 15 that is the address of glyph VX; the product is exact iff VX ≤ 51 |
| Opcodes.OpFX33 | opcodes.go:220-229 | it faults exactly when I + 2 lies past memory; otherwise only memory changes |
| Opcodes.BcdDigits | opcodes.go:222-225 | the three values computed are the decimal digits: 100c + 10b + a = VX with a, b ≤ 9 and c ≤ 2 |
| Opcodes.BcdStoresDigits | opcodes.go:220-229 | FX33 stores those digits, hundreds first, at I, I+1, I+2 and no other byte of memory changes |
| Opcodes.ThreeWrites | opcodes.go:226-228 | three successive writes at I, I+1, I+2 place their bytes there and touch nothing else |
| Opcodes.BcdOf157 | opcodes.go:220-229 | VX = 157 stores the bytes 1, 5, 7 |
| Opcodes.StoreFrom | opcodes.go:233-236 | the store loop from k writes V[j] to base + j for k ≤ j ≤ X, fails iff the last address lies past memory, and leaves the rest of memory alone |
| Opcodes.OpFX55 | opcodes.go:231-237 | it faults iff I + X lies past memory; otherwise mem[I+k] = V[k] for k ≤ X, every other byte and all other state unchanged |
| Opcodes.LoadFrom | opcodes.go:241-244 | the load loop from k sets V[j] to mem[base + j] for k ≤ j ≤ X and leaves the other registers |
| Opcodes.OpFX65 | opcodes.go:239-245 | it faults iff I + X lies past memory; otherwise V[k] = mem[I+k] for k ≤ X, the registers above X and all other state unchanged |
| Opcodes.StoreLoadRoundTrip | opcodes.go:231-245 | FX55 then FX65 with the same I and X leaves every register as it was |
| Opcodes.DrawRow | opcodes.go:159 | one row fails exactly when its memory byte or its screen row is out of range; otherwise the grid becomes `draw_line8` of byte I + k at (VX, VY + k), which is the reference blit of that byte at the folded screen row; it stays well shaped, and a 0/1 grid stays 0/1 |
| Opcodes.DrawRows | opcodes.go:158-160 | the row loop gives no grid exactly when some remaining row does not fit; otherwise the grid stays well shaped and a 0/1 grid stays 0/1 |
| Opcodes.DrawRowsPaint | opcodes.go:158-160 | when the bytes lie inside memory, the row loop from row k equals the reference `Display.Paint` of the bytes from I + k starting at row VY + k. That reference blits each byte, one row lower each time, and rejects the first row `draw_line8` rejects. The two give the same grid, and no grid for the same sprites |
| Opcodes.OpDXYN | opcodes.go:154-161 | it faults exactly when some row of the NN rows does not fit; otherwise I, VF and everything but the grid are unchanged |
| Opcodes.DrawOneRow | opcodes.go:154-161 | a one-row sprite is exactly one `draw_line8` of the byte at I at (VX, VY) reinterpreted as int8 |
| Opcodes.DrawSprite | opcodes.go:154-161 | with its NN bytes inside memory, DXYN succeeds exactly when the reference paint does, and the grid is then the painted grid |
| Opcodes.DrawTwoRows | opcodes.go:158-160 | a two-row sprite is two chained `draw_line8` calls, the second one row lower |
| Opcodes.DrawWrapsToTop | opcodes.go:158-160 | a three-row sprite at VY = 31 is blitted on screen rows 31, 0 and 1 |
| Opcodes.DrawPastRow63Faults | opcodes.go:158-160 | at VY = 60 a five-row sprite panics: its fifth row is row 64 |
| Opcodes.OpEX9E | opcodes.go:163-168 | PC advances by 2 exactly when the key numbered VX is down; nothing else changes |
| Opcodes.OpEXA1 | opcodes.go:170-175 | PC advances by 2 exactly when the key numbered VX is not down; nothing else changes |
| Opcodes.KeySkipsExclusive | opcodes.go:163-175 | exactly one of EX9E and EXA1 skips for the same state and keypad |
| Opcodes.FirstPressed | opcodes.go:184-189 | the scan returns the lowest key from k to 15 that is down, or none exactly when no such key is down |
| Opcodes.OpFX0A | opcodes.go:182-191 | with a key 0..15 down, VX becomes that key; with none, PC steps back by 2 modulo 2^16 and nothing else changes |
| Cpu.NibbleParts | cpu.go:89 | a word is its four hex digits, and the masks `& 0xF000`, `& 0x00FF`, `& 0x000F` select them |
| Cpu.Dispatch | cpu.go:89-182 | the handler for each word; pinned down in both directions by `Cpu.DispatchFitsPattern` and `Cpu.DispatchFollowsPatterns` |
| Cpu.DispatchFitsPattern | cpu.go:89-182 | every word `tick` dispatches fits that handler's opcode pattern; for 5XY0 and 9XY0 it fits only once its low nibble is cleared |
| Cpu.DispatchFollowsPatterns | cpu.go:89-182 | every word that fits a handler's pattern is dispatched to that handler, so dispatch and the patterns agree in both directions |
| Cpu.LowNibbleIgnored | cpu.go:107-108 | 0x5121 and 0x9121 do not fit the 5XY0/9XY0 patterns yet are dispatched as them |
| Cpu.Execute | cpu.go:89-182 | an unknown word changes nothing; only a handler that may panic faults; only control flow moves PC; only call/return touch the stack; only FX33/FX55 touch memory; only 00E0/DXYN touch the grid; only FX15/FX18 touch the timers |
| Cpu.CountdownSettles | cpu.go:83-88 | after n ticks a non-negative timer is max(t - n, 0) and a negative timer is unchanged, so no positive timer turns negative |
| Cpu.TimerDecrement | cpu.go:75-78 | both timers lose one in int8 arithmetic: -128 wraps to 127; nothing else changes |
| Cpu.Init | cpu.go:62-73 | 16 zero registers, I = 0, PC = 0x200, an empty stack of capacity 16, both timers 0 |
| Cpu.Boot | console.go:22-34 | an initialised machine with the ROM at 0x200, the font below it and a 0/1 grid |
| Cpu.Advance | cpu.go:81-88 | PC moves on by 2 modulo 2^16 and both timers count down; nothing else changes |
| Cpu.Fetch | cpu.go:81 | the big-endian word at PC, and none exactly when PC + 1 lies past memory |
| Cpu.Tick | cpu.go:80-183 | a fetch past memory faults; an unknown word only advances PC and counts the timers down; a non-control-flow instruction ends with PC + 2; timers not written by the instruction count down; only panicking handlers fault |
| Cpu.BootFetchesRomStart | cpu.go:81 | the first fetch after boot reads the first two ROM bytes, high byte first |
| Cpu.TickExecutes | cpu.go:80-183 | a tick at a word runs that word's handler on the advanced machine |
| Cpu.CallThenReturn | cpu.go:94-102 | 2NNN on a non-full stack lands on NNN with the return address pushed, and a following 00EE returns to the instruction after the call with the stack as before |
| Cpu.WaitKeyRepeats | opcodes.go:182-191 | a tick at FX0A with no key 0..15 down leaves PC and the registers as they were |
| Cpu.WaitKeyTakesKey | opcodes.go:182-191 | a tick at FX0A with key k down sets V0 (not VX) to k and moves PC on by 2 |
| Cpu.SkipJumpsOverOneInstruction | cpu.go:103-104 | a taken 3XNN tick ends with PC = old PC + 4 |
| Cpu.TickSkips | cpu.go:80-183 | a tick at any of 3XNN, 4XNN, 5XY0, 9XY0, EX9E, EXA1 changes only PC and the timers, and ends with PC + 4 exactly when the instruction's condition holds on V0 (and NN or the keypad), PC + 2 otherwise |
| Cpu.RegsEqualAlwaysSkips | opcodes.go:42-48 | every 5XYN tick skips, because it compares V0 with V0 |
| Cpu.RegsDifferNeverSkips | opcodes.go:132-138 | no 9XYN tick skips, for the same reason |
| Cpu.TickDraws | cpu.go:144-145 | a tick at DXYN draws NN rows at (V0, V0) on the advanced machine |
| Cpu.DrawsEighteenRows | opcodes.go:157 | D012 draws 0x12 = 18 rows, not 2 |
| Cpu.LoadTargetsV0 | opcodes.go:50-54 | a tick at 6XNN loads NN into V0 whatever X says, and the tick changes nothing else |
| Cpu.AddDoublesV0 | opcodes.go:86-96 | a tick at 8XY4 doubles V0 modulo 256, clears VF and leaves V1..VE unchanged, whatever X and Y say |
| Cpu.LoadsAndAddFromBoot | cpu.go:80-183 | from boot, the program 6005 610A 8014 loads 5 and then 10 into V0 (V1 stays 0) and the add doubles V0 to 20, leaving VF = 0 and PC = 0x206 |
| Memory.Init | memory.go:40-141 | 0x1000 bytes, glyph k at 5k..5k+4, and every byte from 0x50 up is 0 |
| Memory.Read | memory.go:19-21 | the byte at an address inside memory; pinned down by `Memory.Write`, whose contract reads back through it |
| Memory.Read2 | memory.go:23-25 | the high byte of the word is data[a] and the low byte is data[a + 1] |
| Memory.Write | memory.go:27-29 | the written address reads back the value and every other address is unchanged |
| Memory.LoadRom | memory.go:34-36 | the ROM bytes land at 0x200 onward and every byte below 0x200 or past the ROM is unchanged |
| Memory.LoadedContents | memory.go:34-36 | the loaded image has the ROM at 0x200 and the original bytes everywhere else |
| Memory.FirstOpcodeAfterLoad | memory.go:23-25 | after init and a load, the word at 0x200 is rom[0]·256 + rom[1] |
| Memory.GlyphAddress | memory.go:43-137 | glyph k's five bytes lie at 5k..5k+4, inside the font area |
| Memory.FontLowNibbleZero | memory.go:43-137 | every font byte has a zero low nibble |
| CallStack.Init | structs.go:9-13 | the new stack is empty with the requested capacity |
| CallStack.Push | structs.go:15-21 | on a full stack nothing changes; otherwise the value goes on top and no other slot changes |
| CallStack.Pop | structs.go:23-27 | none exactly when the stack is empty; otherwise the top entry and the stack without it, slots untouched |
| CallStack.PushPop | structs.go:15-27 | a pop after a push on a non-full stack returns the pushed value and restores the contents and depth |
| CallStack.PushPushPopPop | structs_test.go:5-20 | push 15, push 42, pop, pop returns 42 then 15 and ends empty |
| CallStack.PushAllContents | structs.go:15-21 | a run of pushes appends all values while there is room, and only the first size - depth of them otherwise |
| CallStack.PushAllStuck | structs.go:16-18 | on a full stack any run of pushes changes nothing |
| CallStack.SeventeenthPushDropped | structs.go:16-18 | sixteen pushes fill a stack of capacity 16 and the seventeenth is dropped |
| Display.Init | console_io.go:81-91 | a 64×32 grid of zeros |
| Display.Clear | console_io.go:54-60 | every cell becomes 0 |
| Display.AddUntilNonNegative | console_io.go:34-36 | repeated adding of the period gives a non-negative value congruent to the input, below the period when the input was negative |
| Display.RowIndex | console_io.go:31-36 | the row lands in the grid exactly when y < 64, and is then y modulo 32 |
| Display.ColumnIndex | console_io.go:38-44 | bit i lands in column (x + i) modulo 64 |
| Display.DrawBits | console_io.go:37-50 | the inner loop from bit i XORs the remaining bits into their columns, leaves every other cell, and reports 1 iff a lit cell was erased |
| Display.DrawLine8 | console_io.go:29-52 | it fails exactly for y ≥ 64; otherwise the grid is the blit of the line (each of the 8 cells XORed with its bit, MSB leftmost, others unchanged) and the result is 1 iff a lit cell was erased |
| Display.DrawKeepsBinary | console_io.go:45-49 | a 0/1 grid stays 0/1 after a draw |
| Display.DrawTwiceRestores | console_io.go:37-50 | on a 0/1 grid, drawing the same line twice at the same place restores the grid |
| Display.SecondDrawCollides | console_io.go:45-48 | the second of two identical draws reports a collision iff some bit of the line hit a cell that was 0 before the first |
| Display.DrawOnBlankNoCollision | console_io.go:45-48 | a draw on an all-zero grid reports no collision |
| Display.PaintWrapsToTop | console_io.go:31-36 | three rows painted from row byte 31 land on screen rows 31, 0 and 1 |
| Display.WrapAtColumnSixty | console_io.go:38-44 | a line at x = 60 covers columns 60..63 and 0..3 |
| Input.IsPressed | console_io.go:141-143 | a key reports pressed exactly when it equals the stored key code, so only a stored code in byte range is ever reported |
| Input.SomeKeyPressed | console_io.go:141-143 | some key reports pressed exactly when the stored code is a byte value; the no-key code -255 never matches |
| Input.Init | console_io.go:137-139 | after init no key reports pressed |
| Input.AtMostOneKey | console_io.go:141-143 | two keys that both report pressed are the same key |
| Base.Int8RoundTrip | cpu.go:8 | byte to int8 and back, and int8 to byte and back, are identities |
| Disasm.FieldsReassemble | chip_disasm.go:33-37 | the disassembler's X, Y, N, NN and NNN fields reassemble the word |
| Disasm.ShownRegisterIsNotUsed | chip_disasm.go:33 | the listed X and Y are the word's nibbles, while the interpreter's X and Y for the same word are 0 |
| Disasm.Decode | chip_disasm.go:18-109 | the instruction a word lists as; pinned down by `Disasm.DecodeAssemble` and `Disasm.AssembleDecode` |
| Disasm.DecodeAssemble | chip_disasm.go:18-109 | decoding the opcode word of any encodable instruction gives that instruction back |
| Disasm.AssembleDecode | chip_disasm.go:18-109 | every word decoded to a known instruction is that instruction's opcode word, except that SE/SNE Vx, Vy lose the unchecked low nibble |
| Disasm.ListingAgreesWithTick | chip_disasm.go:18-109 | the listed instruction is the handler `tick` runs, and `tick`'s unknown words are exactly the SYS and unknown lines |
| Disasm.Words | chip_disasm.go:11-17 | the nonzero words from PC up to the first zero word; pinned down by `Disasm.WordsShape` |
| Disasm.WordsShape | chip_disasm.go:11-17 | the walk fails exactly when no zero word lies before the end of memory; otherwise it returns the nonzero words in order and the next word is zero |
| Disasm.Listing | chip_disasm.go:11-17 | those words decoded; pinned down by `Disasm.ListingShape` |
| Disasm.ListingShape | chip_disasm.go:11-17 | the walk fails exactly when no zero word lies before the end of memory; otherwise it lists the decoded nonzero words before the first zero word |
| Disasm.ListingStep | chip_disasm.go:11-17 | a zero word ends the listing and any other word is listed in front of the listing from 2 bytes on |
| Disasm.Disassemble | chip_disasm.go:7-17 | the loop from 0x200 produces the listing |
| Disasm.ListingOfWords | chip_disasm.go:11-17 | nonzero words followed by a zero word list as exactly those words, decoded |
| Disasm.ListingOfImage | chip_disasm.go:8-17 | a loaded ROM of nonzero words with room behind it lists every word and stops at the zero word init left behind it |

## Left out

- OpenGL/GLFW rendering and window set-up (console_io.go:62-79, 93-104) are foreign library calls. The grid is modelled; drawing it is not.
- Keyboard polling in `CHIP8Input.tick` (console_io.go:145-180) reads window-system state. The key code is a parameter of `Tick` instead.
- `CHIP8Sound` (console_io.go:107-125) is a stub with no behaviour.
- The run loop of console.go uses wall-clock time, sleeping and Esc polling, and is left out. Only its `init` sequence is modelled, as `Cpu.Boot`. main.go is not part of this model.
- The file reads of `read_rom` (memory.go:32) and `disasm_rom` are I/O. Loading is modelled from a given byte sequence.
- `math/rand` in CXNN is modelled as a random byte passed in as a parameter.
- `fmt.Printf` text in cpu.go and chip_disasm.go is not modelled. "Unknown opcode" becomes the `Unknown` handler or instruction, and mnemonics are the `Instruction` datatype.
- The `*_i` interface declarations carry no behaviour.
- `Opcodes.Op0NNN` is the empty body. `tick` never dispatches to it, so it has no contract.
- CallStack.Pop: popping an empty stack decrements a `uint16` to 65535 and then indexes out of range. The model reports this as `None`, and `Op00EE` reports it as `Fault(StackUnderflow)`, instead of modelling the wrapped index.
- Opcodes.OpDXYN: its own contract states which sprites fault and that only the grid changes. The grid itself is stated by `Opcodes.DrawSprite` against `Display.Paint`, and only for sprites whose bytes lie inside memory; a sprite that runs past memory faults, as its own contract states.
- Cpu.Execute: its contract states which parts of the machine each handler may change. What a handler computes is stated by that handler's own contract in `Opcodes`.
- Cpu.Tick: its contract states the fetch, the PC step, the timers and the fault cases. `Cpu.TickExecutes` connects it to `Execute` for any fetched word.
- Opcodes.OpFX33: its own contract states only the fault case and that nothing but memory changes. The stored digits and the frame are stated by `Opcodes.BcdStoresDigits`.
- The opcode at opcodes.go:159 passes `uint8` values to the `int8` parameters of `draw_line8` (console_io.go:29). This is modelled as the two's-complement reinterpretation of each byte.
