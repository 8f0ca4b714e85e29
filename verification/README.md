# A verified model of the PyChip8 interpreter core

This project models the CHIP-8 virtual machine in `lib/chip8.py` in Dafny.
It covers two classes:

- `Processor` decodes and executes one opcode.
- `Chip8` owns the machine state: 4096 memory cells, a 16-entry stack,
  registers V0..VF, I, pc, sp, the delay and sound timers, and a 64×32
  framebuffer. It drives the fetch, execute and timer cycle.

The project has five modules:

- `Machine` (machine.dfy): the constants, the font glyphs and the
  machine state as a value (`State`). It also defines the invariant every
  reachable state keeps (`WellFormed`) and the faults the interpreter can
  raise.
- `Bits` (bits.dfy): Python's `&`, `|` and `^` on unbounded non-negative
  integers, bit by bit, with the facts about them that the model uses.
- `Semantics` (semantics.dfy): the reference semantics. Each handler of
  the interpreter is a function from a state to `Ok(new state)` or
  `Err(fault)`. This covers `run`, `reset`, `load`, `update_timers` and
  one iteration of `run_cycle`.
- `Chip8Vm` (chip8.dfy): the two classes as imperative Dafny.
  - The arrays are `array<nat>` fields, and the handlers update them in
    place.
  - The loops of the source stay loops, with their invariants: the draw
    loops, the wrap-around loops of `set_pixel`, the clearing loops of
    `reset`, and the loops of Fx33, Fx55 and Fx65.
  - Every opcode handler of `Processor`, and `Step`, `Reset`,
    `ResetDisplay`, `Load` and `UpdateTimers` of `Chip8`, is proved to
    produce what the matching `Semantics` function gives. `Agrees` states
    this: the same fault, or no fault and the same new state.
  - The helpers that carry the loops (`SetPixel`, `Wrap`, the clearing
    loops of reset and the draw loops) have contracts of their own, stated
    directly on the arrays.
- `DrawProperties` (draw_properties.dfy) and `Properties`
  (properties.dfy): what the interpreter promises, as lemmas over
  `Semantics`.

The model follows the code as written, including where the code departs
from the usual CHIP-8 conventions:

- Registers, memory and stack are Python `array('I')`, so each cell holds
  any value below 2^32. Nothing masks the cells to 8 bits.
  - 8xyE doubles Vx without masking it.
  - 7xnn and 8xy4 subtract 256 only once.
  - A store of a value outside the 32-bit range gives the `Overflow`
    fault (Python's OverflowError).
  - The byte-level properties therefore assume byte-sized operands.
- Indexing past an array gives `IndexOutOfRange` (Python's IndexError).
  This covers a full stack on 2nnn, Fx33/Fx55/Fx65/Dxyn past the end of
  memory, and a program too long for `load`.
- A Python `assert` gives `AssertionFailed`. `call` checks `sp <= 0xFF`,
  but the 16-cell stack fails first, so that check can never fire.
- `reset` clears memory only up to 0xFFE, and the stack and registers
  only up to index 14. Memory cell 0xFFF, `stack[15]` and VF keep their
  values.
- Every 8xy_ opcode first asserts that neither x nor y is VF, so 8Fy_ and
  8xF_ give `AssertionFailed` whatever their sub-opcode is.
- Otherwise an unknown sub-opcode under nibbles 5, 8, 9, E or F does
  nothing. Only nibble 0 raises `UnsupportedOpCode`.
- After a fault the interpreter stops. The model promises only that the
  machine is still well formed, not which partial writes the handler made
  before the exception.

The model takes the outside world as parameters:

- `key` is the key source's current value (`None` when no key is held).
- `rnd` is the random byte Cxnn draws.
- `due` says whether a 60 Hz timer tick has elapsed.
- The program that `load` reads is passed as a byte sequence.
- The `key_listener` closure that Fx0A installs is the field
  `awaitingKey`, holding the number of the register that waits for a key.

## Model

| member | source | states |
|---|---|---|
| Chip8Vm.Chip8.constructor | lib/chip8.py:369-407 | The new machine is well formed and equals the zero-filled machine after reset. |
| Chip8Vm.Chip8.ResetDisplay | lib/chip8.py:423-427 | Every pixel is 0 and a refresh is due. Nothing else changes. |
| Chip8Vm.Chip8.Reset | lib/chip8.py:429-448 | The new state is `Semantics.Reset` of the old one: glyphs, cleared memory, stack, registers and screen, I = timers = sp = 0 and pc = 0x200. |
| Chip8Vm.Chip8.ClearMemory | lib/chip8.py:430-434 | Memory becomes the 80 glyph bytes, then zeros up to 0xFFE, then the old cell 0xFFF. |
| Chip8Vm.Chip8.CopyGlyphs | lib/chip8.py:430-431 | Cells 0..79 hold the glyphs. Every other cell is unchanged. |
| Chip8Vm.Chip8.ZeroMemory | lib/chip8.py:433-434 | Cells 80..0xFFE are 0. Cells 0..79 and 0xFFF are unchanged. |
| Chip8Vm.Chip8.ClearStackAndRegisters | lib/chip8.py:436-438 | Stack and registers 0..14 are 0. Index 15 of each keeps its value. |
| Chip8Vm.Chip8.Load | lib/chip8.py:450-460 | The outcome of `Semantics.Load`: the program is copied from 0x200, or IndexOutOfRange. |
| Chip8Vm.Chip8.UpdateTimers | lib/chip8.py:469-479 | New state and beep as `Semantics.UpdateTimers` gives them. `Properties.TimersCountDown` states what that is. |
| Chip8Vm.Chip8.SetPixel | lib/chip8.py:500-516 | Exactly the wrapped cell `PixelIndex(x, y)` is XOR-toggled and a refresh is due. The result is true iff that cell is now 0. |
| Chip8Vm.Chip8.Step | lib/chip8.py:481-498 | One cycle gives the fault, frame, beep and new state of `Semantics.Step`. |
| Chip8Vm.Wrap | lib/chip8.py:501-509 | The wrap loops end with 0 <= w < size and w congruent to v modulo size. |
| Chip8Vm.Processor.Run | lib/chip8.py:45-74 | Agrees with `Semantics.Run`: pc += 2, then dispatch on the top nibble. |
| Chip8Vm.Processor.ClearDisplay | lib/chip8.py:76-78 | 00E0 is `Semantics.ResetDisplay`. |
| Chip8Vm.Processor.ReturnFromSubroutine | lib/chip8.py:80-84 | Agrees with `Semantics.ReturnFromSubroutine`: pop, or AssertionFailed on an empty stack. |
| Chip8Vm.Processor.Jump | lib/chip8.py:86-103 | Agrees with `Semantics.Jump`, including both range assertions. |
| Chip8Vm.Processor.Call | lib/chip8.py:105-113 | Agrees with `Semantics.Call`. |
| Chip8Vm.Processor.Skip | lib/chip8.py:115-166 | Agrees with `Semantics.Skip` for all six skip forms. |
| Chip8Vm.Processor.SetRegister | lib/chip8.py:168-334 | Agrees with `Semantics.SetRegister`. |
| Chip8Vm.Processor.Arithmetic | lib/chip8.py:194-263 | Agrees with `Semantics.Arithmetic` for 8xy0..8xyE. |
| Chip8Vm.Processor.Logical | lib/chip8.py:200-218 | Agrees with `Semantics.Arithmetic` for 8xy0..8xy3. |
| Chip8Vm.Processor.Add | lib/chip8.py:220-228 | Agrees with `Semantics.Arithmetic` for 8xy4. |
| Chip8Vm.Processor.Subtract | lib/chip8.py:230-257 | Agrees with `Semantics.Arithmetic` for 8xy5 and 8xy7. |
| Chip8Vm.Processor.Shift | lib/chip8.py:242-263 | Agrees with `Semantics.Arithmetic` for 8xy6 and 8xyE. |
| Chip8Vm.Processor.Misc | lib/chip8.py:277-334 | Agrees with `Semantics.Misc` for the Fx__ group. |
| Chip8Vm.Processor.StoreBcd | lib/chip8.py:313-320 | The digit loop agrees with `Semantics.StoreBcd`. |
| Chip8Vm.Processor.StoreRegisters | lib/chip8.py:322-327 | The copy loop agrees with `Semantics.StoreRegisters`. |
| Chip8Vm.Processor.LoadRegisters | lib/chip8.py:329-334 | The copy loop agrees with `Semantics.LoadRegisters`. |
| Chip8Vm.Processor.Display | lib/chip8.py:336-361 | The nested draw loops agree with `Semantics.Display`. |
| Chip8Vm.Processor.DrawSprite | lib/chip8.py:354-361 | Fails iff a row lies past memory. Otherwise the screen and VF are the toggles of all the sprite's targets. |
| Chip8Vm.Processor.DrawRow | lib/chip8.py:355-361 | One row adds exactly that row's targets to the toggles made so far. |
| Chip8Vm.Processor.DrawColumn | lib/chip8.py:357-361 | One column adds its target iff bit 0x80 of the shifted row is set. |
| Chip8Vm.Processor.DrawPixel | lib/chip8.py:358-360 | set_pixel, then VF := 1 on a collision, extends the toggles by that cell. |
| Chip8Vm.SpriteTargetsNext | lib/chip8.py:354-355 | The targets of rows 0..r are those of rows 0..r-1 followed by row r's. |
| Chip8Vm.RowTargetsNext | lib/chip8.py:356-361 | A column contributes its cell iff its sprite bit is set. |
| Chip8Vm.DrawOnePixel | lib/chip8.py:358-360 | One more toggled pixel keeps the state equal to "VF := 0, then all toggles so far". |
| Machine.PixelIndex | lib/chip8.py:500-511 | The cell lies in the framebuffer. Its column is x mod 64 and its row is y mod 32, also for negative x or y. |
| Semantics.StoreRegister | lib/chip8.py:183-333 | A register store succeeds iff the value fits a 32-bit cell. |
| Semantics.Digits | lib/chip8.py:317-319 | Three decimal digits, each below 10, that recompose to n when n < 1000. |
| Semantics.RowTargets | lib/chip8.py:356-361 | A sprite row has at most as many targets as columns drawn. |
| Semantics.SpriteTargets | lib/chip8.py:354-361 | A sprite of n rows has at most 8n targets. |
| Semantics.ToggleAll | lib/chip8.py:513-516 | Toggling keeps the framebuffer's size. |
| Semantics.ToggleAllSnoc | lib/chip8.py:513-516 | Toggling one more cell flips that cell and records whether it went off. |
| Semantics.PowerOn | lib/chip8.py:369-405 | The freshly allocated machine (zeroed arrays) is well formed. |
| Bits.BitwiseBounded | lib/chip8.py:206-217 | `&`, `\|` and `^` of two k-bit values give a k-bit value. |
| Bits.BitAndBelow | lib/chip8.py:273-274 | `a & b` is at most a and at most b. |
| Bits.OrOfDisjointBits | lib/chip8.py:489 | `hi << k \| lo` equals hi·2^k + lo when lo has k bits. |
| DrawProperties.PixelIndexInjective | lib/chip8.py:500-511 | Two coordinate pairs address the same cell iff they agree modulo 64 and modulo 32. |
| DrawProperties.ScreenRowsDiffer | lib/chip8.py:358 | Sprite rows fewer than 32 apart land on different screen rows. |
| DrawProperties.ColumnsDiffer | lib/chip8.py:358 | Columns fewer than 64 apart land in different cells. |
| DrawProperties.RowTargetsShape | lib/chip8.py:356-361 | One row's targets are pairwise distinct, all on its screen row, and unlike every column still to be drawn. |
| DrawProperties.DistinctConcat | lib/chip8.py:354-361 | Two duplicate-free sequences with no common cell concatenate to a duplicate-free one. |
| DrawProperties.SpriteTargetsShape | lib/chip8.py:354-361 | The targets of a sprite of at most 32 rows are pairwise distinct and avoid the rows still to be drawn. |
| DrawProperties.ToggleDistinct | lib/chip8.py:513-516 | Toggling distinct cells flips exactly those cells. A collision is reported iff one of them was lit. |
| DrawProperties.DrawXorsSprite | lib/chip8.py:350-361 | Dxyn inside memory XORs exactly the sprite's cells and sets VF to 1 iff a lit cell was hit, else 0. A refresh becomes due iff the sprite has a set bit (or one was already due). Nothing else changes. |
| DrawProperties.DrawKeepsWellFormed | lib/chip8.py:350-361 | After a draw every pixel is still 0 or 1. |
| DrawProperties.FlipTwice | lib/chip8.py:513 | `b ^= 1` twice restores a one-bit pixel. |
| DrawProperties.DrawTwiceRestores | lib/chip8.py:350-361 | Drawing the same sprite twice at the same place restores the screen. The second VF reports a hit on the first draw's pixels. |
| DrawProperties.ClearThenDrawNoCollision | lib/chip8.py:350-361 | A draw right after 00E0 (lines 76-78) never sets VF. |
| Properties.UnsupportedOpCodeExactly | lib/chip8.py:50-59 | UnsupportedOpCode is raised iff the top nibble is 0 and the opcode is neither 00E0 nor 00EE. |
| Properties.RunAdvancesPc | lib/chip8.py:50-51 | Every successful non-control opcode leaves pc two bytes further on. |
| Properties.Pushed | lib/chip8.py:109-113 | After a push the stack keeps its size and sp has grown by one. |
| Properties.CallOutcome | lib/chip8.py:105-113 | 2nnn fails iff the stack is full or pc does not fit a cell, never by the assertion. Otherwise it pushes the advanced pc and jumps to nnn. |
| Properties.CallThenReturn | lib/chip8.py:80-113 | 2nnn then 00EE returns to the instruction after the call with sp restored. Only the written stack cell differs. |
| Properties.ReturnOutcome | lib/chip8.py:80-84 | 00EE fails iff sp is 0. Otherwise it pops into pc. |
| Properties.AddImmediate | lib/chip8.py:186-192 | 7xnn sets Vx to (Vx + nn) mod 256. VF and the other registers are unchanged. |
| Properties.AddRegisters | lib/chip8.py:196-226 | 8xy4 sets Vx to the sum mod 256 and VF to the carry (1 iff sum > 255). |
| Properties.Subtract | lib/chip8.py:231-238 | 8xy5 sets Vx to (Vx − Vy) mod 256, in [0, 255], and VF to 1 iff Vy > Vx. |
| Properties.SubtractReversed | lib/chip8.py:249-256 | 8xy7 sets Vx to (Vy − Vx) mod 256, in [0, 255], and VF to 1 iff Vx > Vy. |
| Properties.Shifts | lib/chip8.py:243-262 | 8xy6 halves Vx with its low bit in VF. 8xyE doubles Vx unmasked with bit 7 in VF, and fails only past 32 bits. |
| Properties.LogicalOpsStayBytes | lib/chip8.py:206-218 | OR, AND and XOR of two bytes give a byte. Only Vx changes. |
| Properties.RandomMasked | lib/chip8.py:272-274 | Cxnn stores a value no larger than nn. Only Vx changes. |
| Properties.Bcd | lib/chip8.py:314-319 | Fx33 fails iff I+2 is past memory. Otherwise it writes three digits below 10 that recompose to Vx when Vx < 1000, and no other cell changes. |
| Properties.StoreThenLoadRegisters | lib/chip8.py:323-333 | Fx55 puts V0..Vx at memory[I..I+x] and leaves every other cell and field unchanged. Fx65 with the same x then changes nothing. |
| Properties.MiscDispatch | lib/chip8.py:70-71 | An Fx__ opcode runs the Fx__ group on the state with pc advanced. |
| Properties.GlyphAddress | lib/chip8.py:308-310 | With the glyphs at 0..79 and a digit d in Vx, Fx29 sets I to 5d, the start of d's five glyph bytes. Nothing but pc and I changes. |
| Properties.GlyphAddressAfterReset | lib/chip8.py:308-310 | After reset the glyphs are in place. Vx is 0 for x < 15, so Fx29 points I at glyph 0, or at the glyph of the digit VF kept. |
| Properties.FetchBigEndian | lib/chip8.py:489 | The fetched opcode is memory[pc]·256 + memory[pc+1]. Its top nibble is the high nibble of memory[pc]. |
| Properties.HighNibble | lib/chip8.py:489 | The top nibble of a two-byte word is the top nibble of its first byte. |
| Properties.SkipsComplementary | lib/chip8.py:115-166 | Of 3xnn/4xnn, 5xy0/9xy0 and Ex9E/ExA1 on equal operands, exactly one skips. Neither changes anything but pc. |
| Properties.JumpTargets | lib/chip8.py:86-103 | 1nnn lands on nnn and Bnnn on nnn + V0, iff the target is in [0x200, 0xFFFF]; otherwise AssertionFailed. |
| Properties.ArithmeticKeepsWellFormed | lib/chip8.py:194-263 | The 8xy_ group keeps the machine well formed. |
| Properties.MiscKeepsWellFormed | lib/chip8.py:277-333 | The Fx__ group keeps the machine well formed. |
| Properties.SetRegisterKeepsWellFormed | lib/chip8.py:168-334 | The register operations keep the machine well formed. |
| Properties.DisplayKeepsWellFormed | lib/chip8.py:336-361 | Dxyn keeps the machine well formed. |
| Properties.ControlKeepsWellFormed | lib/chip8.py:53-166 | Jumps, calls, returns, skips and 00E0 keep the machine well formed. |
| Properties.RegisterOpsKeepWellFormed | lib/chip8.py:70-71 | Opcodes dispatched to set_register keep the machine well formed. |
| Properties.RunKeepsWellFormed | lib/chip8.py:45-74 | Every successful opcode keeps the machine well formed: sizes, 32-bit cells, 1-bit pixels and sp in range. |
| Properties.TimersCountDown | lib/chip8.py:469-479 | When due, DT and ST count down to 0. The tone sounds iff ST goes from 1 to 0. When not due, nothing changes. |
| Properties.WaitForKey | lib/chip8.py:282-291 | Fx0A makes the next cycle wait. A pressed key is stored in Vx, ends the wait, and fetching resumes after Fx0A. |
| Properties.IdleWhileWaiting | lib/chip8.py:483-498 | While waiting with no key held, a cycle changes nothing but the timers and hands over no frame. |
| Properties.CycleRunsFetched | lib/chip8.py:488-498 | A fetching cycle runs the opcode at pc. It hands over the framebuffer iff a refresh was due, after which none is pending. |
| Properties.StepKeepsWellFormed | lib/chip8.py:481-498 | Every successful cycle keeps the machine well formed. |
| Properties.ResetState | lib/chip8.py:429-448 | After reset: glyphs at 0..79, zeros to 0xFFE, a blank screen, pc = 0x200, sp = I = DT = ST = 0. Resetting again changes nothing. |
| Properties.LoadPlacesProgram | lib/chip8.py:450-460 | Load succeeds iff the program ends within memory. Its bytes then sit from 0x200 and every other cell is unchanged. |

## Left out

- Rendering, sound and the pygame event loop (lib/renderer.py,
  lib/event_loop.py) are host I/O with no interpreter logic. They are not
  part of this model. The frame `Step` hands over and its `beep` flag
  stand for `refresh_display` and `renderer.beep`.
- The keyboard adapter (lib/keyboard.py) and `get_key_state` are I/O.
  The key source is the `key` parameter.
- pychip8.py (argument parsing and start-up) is not part of this model.
- Logging (`setup_logging`, `set_debug`, every `logger.debug`) is left
  out: it has no effect on the machine.
- `randint` in Cxnn is a library call. The random byte is the `rnd`
  parameter.
- The floating-point `delta_t` accumulator is replaced by the `due`
  parameter of the timer update.
- `start`, `stop` and the `while self.running` loop of `run_cycle` are
  left out: the model has one iteration, `Step`, because the loop does
  not terminate.
- Opening and reading the program file in `load` is I/O. The model
  receives the file's bytes.
- The `key_listener` closure is modelled by the `awaitingKey` field,
  which records the register the closure would fill.
- The state a handler leaves behind when it raises is not modelled
  beyond being well formed. The interpreter stops at the exception.
- Properties.AddImmediate is stated for a byte-sized Vx only. After the
  unmasked 8xyE, Vx can exceed 255, and 7xnn then subtracts 256 only once.
  `Semantics` models that case, but this lemma does not describe it.
- Properties.AddRegisters is stated for byte-sized Vx and Vy only. For
  larger operands 8xy4 subtracts 256 once and the result need not be a
  byte. `Semantics` models that case, but this lemma does not describe it.
- Properties.Subtract is stated for byte-sized Vx and Vy only. For larger
  operands 8xy5 adds 256 at most once, so the difference need not be a
  byte or may not fit a cell. `Semantics` models that case, but this
  lemma does not describe it.
- Properties.SubtractReversed is stated for byte-sized Vx and Vy only,
  for the same reason as Properties.Subtract, for 8xy7.
- Properties.LogicalOpsStayBytes is stated for byte-sized Vx and Vy only.
  Wider operands give wider results, which `Semantics` models.
- Properties.Bcd states the recomposition only for Vx < 1000. For larger
  values (possible after the unmasked 8xyE) the source keeps only the
  lowest three decimal digits, which the lemma does not spell out.
