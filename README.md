# CHIP-8 interpreter core, modelled in Dafny

This project models the class `C8cpu` of a small Python CHIP-8 interpreter
(`cpu.py`). It is a single-threaded machine with these fields:

- 4095 bytes of memory;
- sixteen registers V0–VF;
- an index register I and a program counter;
- a 16-slot call stack with its pointer;
- a 32 × 64 framebuffer of 0/1 cells;
- a `running` flag and a cycle counter.

`execute_opcode` reads the big-endian word at pc and advances pc by 2. It then
dispatches on the first nibble to one handler. Families 8 and F have a second
dispatch, on the low nibble and the low byte respectively. Finally it counts
the cycle.

The project has five modules:

- `Bits` (bits.dfy): Python's `&`, `|` and `^` on non-negative integers, as
  recursive functions. It also holds the lemmas that tie masks and shifts to
  arithmetic.
- `Opcode` (opcode.dfy): the instruction word and its fields. Family, X, Y, N,
  NN and NNN are each computed arithmetically and proved equal to the source's
  mask-and-shift.
- `Machine` (machine.dfy): the interpreter state as a value (`State`). Each
  handler is a function on it, and so is one whole `execute_opcode` (`Step`).
  DXYN is given declaratively: the value each cell has afterwards, and whether
  some lit cell was hit.
- `Cpu` (cpu.dfy): the class `C8cpu`. It has the same fields, with arrays for
  memory, V, the stack and the framebuffer. There is one method per handler,
  updating the fields in place as the Python code does. Every handler method
  is proved to leave the object in exactly the state the matching `Machine`
  function computes from the state before the call. The loop stages of `draw`
  (`DrawSprite`, `DrawRow`, `PlotPixel`) are proved instead against the
  per-cell predicates `ShowsPartial` and `HitBefore`, which describe the
  framebuffer and collision flag after a given number of rows and columns;
  `Draw` then closes the gap to `Machine.Draw`.
  - `Dispatch` is the `opcode_lookup` table.
  - `DrawSprite`, `DrawRow` and `PlotPixel` are the nested pixel loops of
    `draw`, with their loop invariants.
  - `LoadRom` is the copy loop of `load_rom`.
- `Properties` (properties.dfy): what the handlers guarantee. This covers fetch
  and counting, the no-op opcodes, jumps and the self-jump halt, call/return,
  skips, carry and borrow flags, shifts, bitwise operations, the index
  register, drawing and loading. It also holds worked examples.

The model follows the code as written, including its quirks:

- **Carry:** 8XY4 tests `> 256`, so a sum of exactly 256 sets VF to 0.
- **Borrow:** 8XY5/8XY7 set VF only for a strictly positive difference.
- **Shift left:** 8XYE does not mask, so a register can leave the byte range.
- **Add to index:** FX1E reduces modulo 0xFF.
- **Font:** FX29 multiplies the nibble X itself (not VX) by 5.
- **Flag before result:** every flag-setting 8XYN writes VF before VX. In
  8XY6/8XYE, VX is read again after VF was written, so 8FY6 always leaves 0 in
  VF and 8FYE leaves twice the old bit 7.
- **VF in draw:** VF is written inside the pixel loop, so DXY0 leaves VF alone.
- **Family 0:** a word other than 00E0/00EE does nothing.

Where the code and a textbook reading of CHIP-8 disagree, the model follows the
code. Three such places:

- FX29 uses the nibble, not the register's value.
- DXYN writes VF per pixel rather than once at the end; with N = 0 it is never
  written.
- A drawn cell takes the sprite bit rather than being XORed with it.

Registers and stack slots are unbounded naturals, as Python integers are.
Memory cells are bytes, because only `load_rom` writes memory and it writes
the bytes of a file.

Python would raise or misbehave in some places. The model needs these
preconditions there:

- **Fetch:** the word at pc lies inside memory (`pc + 1 < 4095`).
- **Call:** a call finds a free stack slot (`sp < 16`).
- **Return:** a return finds a pushed address (`sp > 0`). In Python `sp = -1`
  would read slot 15.
- **Draw:** every sprite row read lies inside memory (`I + N <= 4095` when N > 0).
- **Load:** a load fits (`offset + |image| <= 4095`).

## Model

| member | source | states |
|---|---|---|
| Bits.And | cpu.py:188 | `a & b` on naturals is at most each operand; its per-bit meaning is Bits.AndBit |
| Bits.AndBit | cpu.py:188 | bit k of `a & b` is set exactly when bit k is set in both a and b, for every a, b, k |
| Bits.Or | cpu.py:179 | Python OR on naturals is at least each operand; its per-bit meaning is Bits.OrBit |
| Bits.OrBit | cpu.py:179 | bit k of the OR is set exactly when bit k is set in either operand, for every a, b, k |
| Bits.Xor | cpu.py:197 | `a ^ b` is at most `a + b`; its per-bit meaning is Bits.XorBit |
| Bits.XorBit | cpu.py:197 | bit k of `a ^ b` is set exactly when a and b differ at bit k, for every a, b, k |
| Bits.LowMask | cpu.py:232 | masking with 2^w − 1 keeps the low w bits (`v & 1` is `v % 2`) |
| Bits.MaskField | cpu.py:100 | masking with a run of w ones at bit k and shifting by k extracts bits k..k+w−1 |
| Bits.ShiftedTopBit | cpu.py:316-317 | after w left shifts, `(sprite & 0x80) >> 7` is bit 7 − w of the original sprite byte |
| Bits.OrBound | cpu.py:179 | OR of two values below 2^k stays below 2^k |
| Bits.XorBound | cpu.py:197 | XOR of two values below 2^k stays below 2^k |
| Bits.XorSelf | cpu.py:197 | `a ^ a == 0` |
| Bits.XorInvolution | cpu.py:197 | `(a ^ b) ^ b == a` |
| Bits.WrapBack | cpu.py:311 | a row offset h < 32 is recovered from the wrapped row `(h + v) % 32` |
| Bits.WrapForward | cpu.py:315 | every screen column is reached from v by an offset below 64 |
| Opcode.Word | cpu.py:48 | the fetched word is below 0x10000 and its fields are the nibbles/bytes of the two memory cells |
| Opcode.FieldsAreMasks | cpu.py:100-101 | Family, X, Y, N, NN, NNN equal the source's `(opcode & mask) >> shift` expressions |
| Opcode.Reassemble | cpu.py:48-50 | the four nibbles of a word rebuild it; NNN = X·0x100 + NN and NN = Y·0x10 + N |
| Machine.Init | cpu.py:6-20 | the initial state is well formed, pc = 0x200, sp = 0, running, cycle 0; opcode and index are 0, every memory cell, register and stack slot is 0, and the screen is blank |
| Machine.Blank | cpu.py:69 | a 32 × 64 framebuffer of zeros |
| Machine.Fetched | cpu.py:48-49 | the handler sees opcode = memory[pc]·256 + memory[pc+1] and pc advanced by 2 |
| Machine.Step | cpu.py:48-52 | a step keeps the state well formed, never changes memory, loads the word at pc, adds 1 to cycle |
| Machine.Load | cpu.py:370-371 | cell a holds `image[a − offset]` inside the loaded range and its old value elsewhere; the length is kept |
| Cpu.C8cpu.constructor | cpu.py:6-20 | fresh arrays of the sizes `__init__` allocates, all zero, pc 0x200, running |
| Cpu.C8cpu.ExecuteOpcode | cpu.py:23-52 | the object afterwards is `Step` of the object before; memory, V and stack stay the same arrays and gfx is the old array or a fresh one, so the next step can be run on the same object |
| Cpu.C8cpu.Dispatch | cpu.py:29-51 | the first-nibble table runs exactly the handler `Execute` selects; memory, V and stack stay the same arrays and gfx is the old array or a fresh one |
| Cpu.C8cpu.NotHandled | cpu.py:54-55 | no field changes |
| Cpu.C8cpu.UnknownOpcode | cpu.py:57-58 | no field changes |
| Cpu.C8cpu.ClearReturn | cpu.py:60-73 | 00E0 installs a blank framebuffer, 00EE pops pc, anything else changes nothing; the other arrays keep their identity |
| Cpu.C8cpu.Jump | cpu.py:75-83 | pc := NNN; running cleared when NNN is pc − 2 |
| Cpu.C8cpu.Subroutine | cpu.py:85-93 | stack[sp] := pc, sp + 1, pc := NNN |
| Cpu.C8cpu.SkipIfEqual | cpu.py:95-103 | pc + 2 exactly when VX = NN |
| Cpu.C8cpu.SkipIfNotEqual | cpu.py:105-113 | pc + 2 exactly when VX ≠ NN |
| Cpu.C8cpu.SkipIfRegisterEqual | cpu.py:115-124 | pc + 2 exactly when VX = VY |
| Cpu.C8cpu.MovValToReg | cpu.py:126-133 | VX := NN |
| Cpu.C8cpu.AddValToReg | cpu.py:135-143 | VX := (VX + NN) mod 256 |
| Cpu.C8cpu.ExecuteEightsOpcode | cpu.py:145-161 | the low-nibble table runs the handler `Machine.ExecuteEightsOpcode` selects, unknown nibbles change nothing |
| Cpu.C8cpu.CopyRegToReg | cpu.py:163-170 | VX := VY |
| Cpu.C8cpu.BitwiseOr | cpu.py:172-179 | VX := VX OR VY |
| Cpu.C8cpu.BitwiseAnd | cpu.py:181-188 | VX := VX & VY |
| Cpu.C8cpu.BitwiseXor | cpu.py:190-197 | VX := VX ^ VY |
| Cpu.C8cpu.AddRegToReg | cpu.py:199-210 | VF := sum > 256, then VX := sum mod 256 |
| Cpu.C8cpu.SubYFromX | cpu.py:212-223 | VF := VX − VY > 0, then VX := difference mod 256 |
| Cpu.C8cpu.ShiftRight | cpu.py:225-233 | VF := VX & 1, then VX := VX >> 1 read after the flag write |
| Cpu.C8cpu.SubXFromY | cpu.py:235-246 | VF := VY − VX > 0, then VX := difference mod 256 |
| Cpu.C8cpu.ShiftLeft | cpu.py:248-256 | VF := bit 7 of VX, then VX := VX << 1 read after the flag write, unmasked |
| Cpu.C8cpu.SkipIfRegisterNotEqual | cpu.py:258-267 | pc + 2 exactly when VX ≠ VY |
| Cpu.C8cpu.SetI | cpu.py:269-274 | I := NNN |
| Cpu.C8cpu.JumpPlus | cpu.py:276-281 | pc := V0 + NNN |
| Cpu.C8cpu.RandomNumberGen | cpu.py:283-291 | VX := rand & NN for the supplied random byte |
| Cpu.C8cpu.Draw | cpu.py:293-329 | the framebuffer and VF afterwards are those of the declarative `Machine.Draw` |
| Cpu.C8cpu.DrawSprite | cpu.py:308-329 | the row loop leaves exactly `Machine.Draw`'s cells and VF |
| Cpu.C8cpu.DrawRow | cpu.py:314-329 | one pass of the column loop draws sprite row h and keeps the collision flag equal to "some visited pixel hit" |
| Cpu.C8cpu.PlotPixel | cpu.py:319-324 | the cell takes the sprite bit, no other cell changes, the old cell value is returned for the collision test |
| Cpu.C8cpu.ExecuteFOpcode | cpu.py:331-347 | the low-byte table runs FX1E/FX29, everything else changes nothing |
| Cpu.C8cpu.AddRegToI | cpu.py:349-355 | I := (VX + I) mod 0xFF |
| Cpu.C8cpu.SetFont | cpu.py:357-364 | I := X · 5 |
| Cpu.C8cpu.LoadRom | cpu.py:368-371 | memory afterwards is `Load` of the old memory; nothing else changes |
| Properties.WordRoundTrip | cpu.py:48-50 | splitting a word into bytes and fetching it back gives the word; Family and NNN are its top nibble and low 12 bits |
| Properties.InertStep | cpu.py:29-73 | a step over a 0NNN other than 00E0/00EE (the fall-through of clear_return), any EXNN (not_handled), an unlisted 8XYN (the unknown_opcode default at line 161) or an FXNN other than FX1E/FX29 (not_handled or unknown_opcode at line 347) changes only opcode, pc + 2 and cycle + 1 |
| Properties.InertTwice | cpu.py:161 | two such steps in a row add 4 to pc and 2 to the cycle count and change nothing else |
| Properties.JumpStep | cpu.py:81-83 | a 1NNN step sets pc := NNN and clears running exactly when NNN is the jump's own address |
| Properties.SelfJumpHalts | cpu.py:81-82 | a jump to itself stops the machine, stays at its address and can be stepped again with the same effect |
| Properties.CallThenReturn | cpu.py:71-73 | a call followed by a return restores pc and sp and changes only the stack slot used |
| Properties.SkipStep | cpu.py:100-124 | 3XNN/4XNN/5XY0/9XY0 advance pc by 4 exactly when their comparison holds, else by 2, and change nothing else |
| Properties.JumpPlusUnbounded | cpu.py:281 | BNNN sets pc to V0 + NNN with no bound; whenever V0 + NNN + 1 reaches the memory size (already for a byte V0 = 255 with NNN = 0xFFF) no further step is defined |
| Properties.LoadImmediate | cpu.py:131-133 | 6XNN writes `opcode & 0xFF` to VX and nothing else |
| Properties.AddImmediate | cpu.py:140-143 | 7XNN on a byte yields a byte, equal to the sum or the sum minus 256 (the latter exactly when the sum reaches 256), other registers including VF untouched |
| Properties.AddCarry | cpu.py:207-210 | on bytes with X ≠ F, VX + 256·VF equals the true sum for every sum except exactly 256, where both VX and VF end as 0 |
| Properties.AddCarryFlag | cpu.py:207-210 | for any register values (X not F), VF = 1 exactly when the sum exceeds 256, and VX is the sum mod 256 |
| Properties.SubtractBorrow | cpu.py:220-223 | on bytes with X ≠ F, VF = 1 exactly when VX > VY; adding VY back to the new VX modulo 256 gives the old VX |
| Properties.SubtractFlag | cpu.py:220-223 | for any register values with X ≠ F, VF = 1 exactly when VX > VY, and VX is (VX − VY) mod 256 |
| Properties.ReverseSubtractBorrow | cpu.py:243-246 | on bytes with X ≠ F, VF = 1 exactly when VY > VX; adding the old VX to the new VX modulo 256 gives VY |
| Properties.ReverseSubtractFlag | cpu.py:243-246 | for any register values with X ≠ F, VF = 1 exactly when VY > VX, and VX is (VY − VX) mod 256 |
| Properties.FlagTargetKeepsResult | cpu.py:209-210 | with X = F, 8XY4/8XY5/8XY7 leave the reduced result, not the flag, in VF |
| Properties.ShiftRightSplits | cpu.py:232-233 | with X ≠ F, VF is the low bit shifted out and 2·VX + VF is the old VX |
| Properties.ShiftLeftDoubles | cpu.py:255-256 | with X ≠ F, VF is bit 7 and VX is doubled; for a byte, the result leaves the byte range exactly when VF = 1 |
| Properties.ShiftFlagRegister | cpu.py:232-233 | 8FY6 leaves 0 in VF and 8FYE leaves twice the old bit 7 |
| Properties.XorTwice | cpu.py:197 | applying 8XY3 twice (X ≠ Y) restores the state |
| Properties.CopyThenXorClears | cpu.py:170 | 8XY0 then 8XY3 leaves 0 in VX |
| Properties.BitwiseBits | cpu.py:172-197 | each bit of VX after 8XY1, 8XY2, 8XY3 and CXNN is the OR, AND, XOR, or AND-with-NN of that bit of the operands |
| Properties.RandomMasked | cpu.py:291 | the stored value is at most the random byte and at most NN; NN = 0xFF keeps the byte, NN = 0 gives 0 |
| Properties.InitByteRegisters | cpu.py:9 | every register of the initial state holds a byte |
| Properties.StepKeepsBytes | cpu.py:23-52 | registers holding bytes still hold bytes after any step other than 8XYE |
| Properties.ShiftLeftLeavesBytes | cpu.py:256 | 8XYE on 0xFF leaves 0x1FE |
| Properties.SetIndex | cpu.py:269-274 | I receives `opcode & 0x0FFF`, which is at most the memory size 0xFFF (one past the last cell for AFFF), and no other field changes |
| Properties.AddToIndexWraps | cpu.py:355 | I stays below 0xFF; a sum below 0xFF is kept, a sum of exactly 0xFF wraps to 0 |
| Properties.FontGlyph | cpu.py:363-364 | FX29 sets only I, to X·5, and the 5-byte glyph lies in the first 0x50 bytes; FX1E leaves the registers alone |
| Properties.ClearScreen | cpu.py:68-69 | 00E0 darkens every cell and changes nothing else |
| Properties.DrawnCell | cpu.py:310-324 | cell ((VY + h) mod 32, (VX + w) mod 64) ends holding bit 7 − w of memory[I + h] |
| Properties.DrawLeavesOthers | cpu.py:310-324 | a cell that changes is the target of some sprite pixel |
| Properties.DrawFlag | cpu.py:319-329 | with N > 0, VF = 1 exactly when some 1-bit landed on a lit cell; with N = 0 no register changes |
| Properties.DrawOnBlank | cpu.py:319-321 | a draw on a dark screen reports no collision |
| Properties.DrawTwice | cpu.py:310-329 | with X, Y ≠ F and N > 0, drawing the same sprite again leaves the screen as it was and reports a collision exactly when the sprite has a 1-bit |
| Properties.LoadThenFetch | cpu.py:368-371 | after loading an image at 0x200, the first fetched word is its first two bytes |
| Properties.LoadIdempotent | cpu.py:370-371 | loading the same image twice equals loading it once, and the loaded range reads back as the image |
| Properties.CarryExamples | cpu.py:207-210 | 200 + 100 gives 44 with VF = 1; 10 + 20 gives 30 with VF = 0; 1 + 255 gives 0 with VF = 0 |
| Properties.BorrowExamples | cpu.py:220-223 | 5 − 3 gives 2 with VF = 1; 3 − 5 gives 254 with VF = 0 |
| Properties.SkipExample | cpu.py:100-103 | 0x3242 with V2 = 0x42 ends 4 past its own address, otherwise 2 |
| Properties.FontExample | cpu.py:363-364 | F529 sets I to 25 |

## Left out

- pychee.py, the pygame driver loop, is not part of this model. It covers timing, events, `sys.exit` and logging state dumps.
- screen.py, the pygame rendering of the framebuffer, is not part of this model.
- The file reading of `load_rom` (`open`/`f.read()`) is not modelled. `LoadRom` takes the file's bytes as a sequence.
- `printmem` and the console messages of `not_handled`/`unknown_opcode` are console output only. Both handlers are modelled as changing nothing.
- `random.randint(0, 255)` in CXNN is a call into the standard library. The random byte is a parameter, so uniformity is not modelled.
- The crashes and wrong-slot reads of Python are preconditions, not behaviour. The model does not say what happens when a call finds the stack full, a return finds it empty, pc runs past memory, or a sprite is read past memory. These are the places where Python raises `IndexError` or reads `stack[-1]`.
- Properties.CallThenReturn: stated over the two handlers, each seeing its fetched word, rather than over two whole steps. The fetch around each handler is what `Machine.Step` states.
- Properties.ClearScreen: stated over the 00E0 handler rather than a whole step, for the same reason.
- The timer, key, BCD and register-block opcodes (FX07, FX0A, FX15, FX18, FX33, FX55, FX65, EXNN) are `not_handled` in the source. The model gives them no effect.
