/** The reference semantics of the interpreter, as functions on machine states:
 *  what one opcode, one reset, one timer update and one cycle of the driver do.
 *  The classes in module Chip8Vm are proved to follow these definitions, and the
 *  lemmas in module Properties state what the definitions promise.
 *
 *  An opcode is the integer read from two memory cells. Its fields are taken with
 *  the masks the interpreter uses: `opcode & 0xF000` is Nibble(opcode) * 0x1000,
 *  `(opcode & 0x0F00) >> 8` is RegX, `(opcode & 0x00F0) >> 4` is RegY, and
 *  `opcode & 0xF`, `& 0xFF`, `& 0xFFF` are Low4, Low8, Low12.
 */
module Semantics {
  import opened Bits
  import opened Machine

  function Nibble(opcode: nat): (n: nat) ensures n < 16 { (opcode / 0x1000) % 16 }
  function RegX(opcode: nat): (x: nat) ensures x < 16 { (opcode / 0x100) % 16 }
  function RegY(opcode: nat): (y: nat) ensures y < 16 { (opcode / 0x10) % 16 }
  function Low4(opcode: nat): (n: nat) ensures n < 0x10 { opcode % 0x10 }
  function Low8(opcode: nat): (nn: nat) ensures nn < 0x100 { opcode % 0x100 }
  function Low12(opcode: nat): (nnn: nat) ensures nnn < 0x1000 { opcode % 0x1000 }

  /** A store of `value` into register r: fails as the 32-bit array does. */
  function StoreRegister(s: State, r: nat, value: int): (res: Result<State>)
    requires r < |s.v|
    ensures res.Ok? <==> Fits(value)
  {
    if Fits(value) then Ok(s.(v := s.v[r := value])) else Err(Overflow)
  }

  /** Processor.run: advance pc by 2, then dispatch on the top nibble. */
  function Run(s: State, opcode: nat, key: Option<nat>, rnd: nat): Result<State>
    requires WellFormed(s)
  {
    var s1 := s.(pc := s.pc + 2);
    var nibble := Nibble(opcode);
    if nibble == 0x0 then
      if opcode == 0x00E0 then Ok(ResetDisplay(s1))
      else if opcode == 0x00EE then ReturnFromSubroutine(s1)
      else Err(UnsupportedOpCode(opcode))
    else if nibble == 0x1 || nibble == 0xB then Jump(s1, opcode)
    else if nibble == 0x2 then Call(s1, opcode)
    else if nibble in {0x3, 0x4, 0x5, 0x9, 0xE} then Skip(s1, opcode, key)
    else if nibble in {0x6, 0x7, 0x8, 0xA, 0xC, 0xF} then SetRegister(s1, opcode, rnd)
    else Display(s1, opcode)  // the one nibble left is 0xD
  }

  /** 00E0 (Chip8.reset_display): every pixel off, and a refresh is due. */
  function ResetDisplay(s: State): State {
    s.(display := Zeros(DisplaySize), refreshNeeded := true)
  }

  /** 00EE: pop the return address; popping the empty stack trips an assertion. */
  function ReturnFromSubroutine(s: State): Result<State>
    requires WellFormed(s)
  {
    if s.sp == 0 then Err(AssertionFailed)
    else Ok(s.(sp := s.sp - 1, pc := s.stack[s.sp - 1]))
  }

  /** 1nnn jumps to nnn; Bnnn jumps to nnn + V0. Targets below 0x200 (and, for
   *  Bnnn, above 0xFFFF) trip an assertion. */
  function Jump(s: State, opcode: nat): Result<State>
    requires WellFormed(s)
    requires Nibble(opcode) == 0x1 || Nibble(opcode) == 0xB
  {
    if Nibble(opcode) == 0x1 then
      var addr := Low12(opcode);
      if addr < 0x200 then Err(AssertionFailed) else Ok(s.(pc := addr))
    else
      var addr := Low12(opcode) + s.v[0];
      if addr < 0x200 || addr > 0xFFFF then Err(AssertionFailed) else Ok(s.(pc := addr))
  }

  /** 2nnn: push pc at stack[sp], increment sp, jump to nnn. Pushing onto a full
   *  stack indexes past its 16 cells; the check `sp <= 0xFF` never fires. */
  function Call(s: State, opcode: nat): Result<State>
    requires WellFormed(s)
  {
    if s.sp >= |s.stack| then Err(IndexOutOfRange)
    else if !Fits(s.pc) then Err(Overflow)
    else if s.sp + 1 > 0xFF then Err(AssertionFailed)
    else Ok(s.(stack := s.stack[s.sp := s.pc], sp := s.sp + 1, pc := Low12(opcode)))
  }

  /** The key source holds exactly this value. */
  predicate KeyIs(key: Option<nat>, value: nat) {
    key.Some? && key.value == value
  }

  /** Whether 3xnn, 4xnn, 5xy0, 9xy0, Ex9E or ExA1 skips; other sub-opcodes of
   *  these nibbles do not. */
  predicate SkipTaken(s: State, opcode: nat, key: Option<nat>)
    requires WellFormed(s)
  {
    var x, y := RegX(opcode), RegY(opcode);
    if Nibble(opcode) == 0x3 then s.v[x] == Low8(opcode)
    else if Nibble(opcode) == 0x4 then s.v[x] != Low8(opcode)
    else if Nibble(opcode) == 0x5 && Low4(opcode) == 0x0 then s.v[x] == s.v[y]
    else if Nibble(opcode) == 0x9 && Low4(opcode) == 0x0 then s.v[x] != s.v[y]
    else if Nibble(opcode) == 0xE && Low8(opcode) == 0x9E then KeyIs(key, s.v[x])
    else if Nibble(opcode) == 0xE && Low8(opcode) == 0xA1 then !KeyIs(key, s.v[x])
    else false
  }

  /** The conditional skips: pc moves past the next instruction, and must stay
   *  within 16 bits. */
  function Skip(s: State, opcode: nat, key: Option<nat>): Result<State>
    requires WellFormed(s)
  {
    if !SkipTaken(s, opcode, key) then Ok(s)
    else if s.pc + 2 > 0xFFFF then Err(AssertionFailed)
    else Ok(s.(pc := s.pc + 2))
  }

  /** Subtracting 256 once, as the interpreter does after an addition. */
  function WrapOnce(sum: nat): nat {
    if sum > 0xFF then sum - (0xFF + 1) else sum
  }

  /** Adding 256 once, as the interpreter does after a subtraction. */
  function UnwrapOnce(diff: int): int {
    if diff < 0 then diff + (0xFF + 1) else diff
  }

  /** The register operations: 6xnn, 7xnn, 8xy_, Annn, Cxnn and Fx__. */
  function SetRegister(s: State, opcode: nat, rnd: nat): Result<State>
    requires WellFormed(s)
  {
    var x, y := RegX(opcode), RegY(opcode);
    if Nibble(opcode) == 0x6 then Ok(s.(v := s.v[x := Low8(opcode)]))
    else if Nibble(opcode) == 0x7 then
      var sum := s.v[x] + Low8(opcode);
      if !Fits(sum) then Err(Overflow) else Ok(s.(v := s.v[x := WrapOnce(sum)]))
    else if Nibble(opcode) == 0x8 then
      if x >= Flag || y >= Flag then Err(AssertionFailed) else Arithmetic(s, opcode)
    else if Nibble(opcode) == 0xA then Ok(s.(i := Low12(opcode)))
    else if Nibble(opcode) == 0xC then StoreRegister(s, x, BitAnd(rnd, Low8(opcode)))
    else if Nibble(opcode) == 0xF then Misc(s, opcode)
    else Ok(s)
  }

  /** 8xy0..8xyE, with x and y already known to differ from VF. */
  function Arithmetic(s: State, opcode: nat): Result<State>
    requires WellFormed(s)
    requires RegX(opcode) < Flag && RegY(opcode) < Flag
  {
    var x, y := RegX(opcode), RegY(opcode);
    var vx, vy := s.v[x], s.v[y];
    var op := Low4(opcode);
    if op == 0x0 then Ok(s.(v := s.v[x := vy]))
    else if op == 0x1 then StoreRegister(s, x, BitOr(vx, vy))
    else if op == 0x2 then StoreRegister(s, x, BitAnd(vx, vy))
    else if op == 0x3 then StoreRegister(s, x, BitXor(vx, vy))
    else if op == 0x4 then
      var sum := vx + vy;
      if !Fits(sum) then Err(Overflow)
      else Ok(s.(v := s.v[x := WrapOnce(sum)][Flag := if sum > 0xFF then 1 else 0]))
    else if op == 0x5 then
      var r := UnwrapOnce(vx as int - vy);
      if !Fits(r) then Err(Overflow)
      else Ok(s.(v := s.v[Flag := if vy > vx then 1 else 0][x := r]))
    else if op == 0x6 then Ok(s.(v := s.v[Flag := vx % 2][x := vx / 2]))
    else if op == 0x7 then
      var r := UnwrapOnce(vy as int - vx);
      if !Fits(r) then Err(Overflow)
      else Ok(s.(v := s.v[Flag := if vx > vy then 1 else 0][x := r]))
    else if op == 0xE then
      // bit 7 goes to VF; the shifted value is not masked to 8 bits
      if !Fits(vx * 2) then Err(Overflow)
      else Ok(s.(v := s.v[Flag := (vx / 0x80) % 2][x := vx * 2]))
    else Ok(s)
  }

  /** The Fx__ group: timers, key wait, I arithmetic, BCD and block transfers. */
  function Misc(s: State, opcode: nat): Result<State>
    requires WellFormed(s)
  {
    var x := RegX(opcode);
    var sub := Low8(opcode);
    if sub == 0x07 then StoreRegister(s, x, s.dt)
    else if sub == 0x0A then Ok(s.(awaitingKey := Some(x)))
    else if sub == 0x15 then Ok(s.(dt := s.v[x]))
    else if sub == 0x18 then Ok(s.(st := s.v[x]))
    else if sub == 0x1E then Ok(s.(i := s.i + s.v[x]))
    else if sub == 0x29 then Ok(s.(i := s.v[x] * HexSpriteSize))
    else if sub == 0x33 then StoreBcd(s, x)
    else if sub == 0x55 then StoreRegisters(s, x)
    else if sub == 0x65 then LoadRegisters(s, x)
    else Ok(s)
  }

  /** The hundreds, tens and units digits of n, most significant first. */
  function Digits(n: nat): (d: seq<nat>)
    ensures |d| == 3 && d[0] < 10 && d[1] < 10 && d[2] < 10
    ensures n < 1000 ==> d[0] * 100 + d[1] * 10 + d[2] == n
  {
    [(n / 100) % 10, (n / 10) % 10, n % 10]
  }

  /** Fx33: the digits of Vx at I, I+1, I+2; the first write goes to I+2. */
  function StoreBcd(s: State, x: nat): Result<State>
    requires WellFormed(s) && x < RegisterCount
  {
    if s.i + 2 >= |s.memory| then Err(IndexOutOfRange)
    else
      var d := Digits(s.v[x]);
      Ok(s.(memory := s.memory[s.i := d[0]][s.i + 1 := d[1]][s.i + 2 := d[2]]))
  }

  /** Fx55: V0..Vx copied to memory[I..I+x]. */
  function StoreRegisters(s: State, x: nat): Result<State>
    requires WellFormed(s) && x < RegisterCount
  {
    if s.i + x >= |s.memory| then Err(IndexOutOfRange)
    else Ok(s.(memory := seq(|s.memory|, j requires 0 <= j < |s.memory| =>
                 if s.i <= j <= s.i + x then s.v[j - s.i] else s.memory[j])))
  }

  /** Fx65: memory[I..I+x] copied to V0..Vx. */
  function LoadRegisters(s: State, x: nat): Result<State>
    requires WellFormed(s) && x < RegisterCount
  {
    if s.i + x >= |s.memory| then Err(IndexOutOfRange)
    else Ok(s.(v := seq(|s.v|, j requires 0 <= j < |s.v| =>
                 if j <= x then s.memory[s.i + j] else s.v[j])))
  }

  /** Whether column col (0 is leftmost) of a sprite row is set: the draw loop
   *  shifts the row left once per column and tests bit 0x80. */
  predicate SpriteBit(sprite: nat, col: nat) {
    (sprite * Pow2(col) / 0x80) % 2 == 1
  }

  /** The framebuffer cells toggled by the first `cols` columns of one sprite
   *  row drawn at (px, py), left to right. */
  function RowTargets(sprite: nat, px: nat, py: nat, cols: nat): (ts: seq<Pixel>)
    ensures |ts| <= cols
  {
    if cols == 0 then []
    else RowTargets(sprite, px, py, cols - 1)
         + (if SpriteBit(sprite, cols - 1) then [PixelIndex(px + cols - 1, py)] else [])
  }

  /** The framebuffer cells toggled by the first `rows` rows of the sprite at
   *  memory[addr..] drawn at (rx, ry), in drawing order. */
  function SpriteTargets(memory: seq<nat>, addr: nat, rows: nat, rx: nat, ry: nat): (ts: seq<Pixel>)
    requires rows == 0 || addr + rows <= |memory|
    ensures |ts| <= 8 * rows
  {
    if rows == 0 then []
    else SpriteTargets(memory, addr, rows - 1, rx, ry)
         + RowTargets(memory[addr + rows - 1], rx, ry + rows - 1, 8)
  }

  /** A framebuffer after some toggles, and whether a toggle turned a pixel off. */
  datatype Drawn = Drawn(display: seq<nat>, collision: bool)

  /** Chip8.set_pixel applied to each target in turn. */
  function ToggleAll(d: seq<nat>, ts: seq<Pixel>): (r: Drawn)
    requires |d| == DisplaySize
    ensures |r.display| == |d|
  {
    if ts == [] then Drawn(d, false)
    else
      var prev := ToggleAll(d, ts[..|ts| - 1]);
      var t := ts[|ts| - 1];
      var lit := Flip(prev.display[t]);
      Drawn(prev.display[t := lit], prev.collision || lit == 0)
  }

  /** Toggling one more target extends ToggleAll by one step. */
  lemma ToggleAllSnoc(d: seq<nat>, ts: seq<Pixel>, t: Pixel)
    requires |d| == DisplaySize
    ensures var prev := ToggleAll(d, ts);
            var lit := Flip(prev.display[t]);
            ToggleAll(d, ts + [t]) == Drawn(prev.display[t := lit], prev.collision || lit == 0)
  {
    assert (ts + [t])[..|ts|] == ts;
  }

  /** Dxyn: VF := 0, then XOR the n-row sprite at memory[I..] onto the screen at
   *  (Vx, Vy), setting VF to 1 when a pixel is turned off. Reading a row past the
   *  end of memory fails. */
  function Display(s: State, opcode: nat): Result<State>
    requires WellFormed(s)
  {
    var addr, n := s.i, Low4(opcode);
    var rx, ry := s.v[RegX(opcode)], s.v[RegY(opcode)];
    if n > 0 && addr + n > |s.memory| then Err(IndexOutOfRange)
    else
      var ts := SpriteTargets(s.memory, addr, n, rx, ry);
      var drawn := ToggleAll(s.display, ts);
      Ok(s.(display := drawn.display,
            v := s.v[Flag := if drawn.collision then 1 else 0],
            refreshNeeded := s.refreshNeeded || |ts| > 0))
  }

  /** The machine as Chip8.__init__ allocates it, before its call to reset:
   *  every array cell zero, no refresh pending, no key awaited. */
  function PowerOn(): (s: State)
    ensures WellFormed(s)
  {
    State(Zeros(MemorySize), Zeros(StackSize), Zeros(RegisterCount), 0, 0, 0, 0, 0,
          Zeros(DisplaySize), false, None)
  }

  /** The state after Chip8.reset: glyphs at 0..79, memory zeroed up to 0xFFE,
   *  stack and registers zeroed up to index 14, screen cleared, counters reset.
   *  Memory cell 0xFFF, stack[15], VF and the key wait are left as they were. */
  function Reset(s: State): State
    requires WellFormed(s)
  {
    s.(memory := HexChars + Zeros(0xFFF - |HexChars|) + [s.memory[0xFFF]],
       stack := Zeros(0xF) + [s.stack[0xF]],
       v := Zeros(0xF) + [s.v[0xF]],
       display := Zeros(DisplaySize),
       refreshNeeded := true,
       i := 0, dt := 0, st := 0, pc := ProgramStart, sp := 0)
  }

  /** Chip8.load: the program's bytes copied to memory from 0x200 on; a program
   *  that does not fit indexes past the end of memory. */
  function Load(s: State, program: seq<nat>): Result<State>
    requires WellFormed(s)
  {
    if ProgramStart + |program| > |s.memory| then Err(IndexOutOfRange)
    else Ok(s.(memory := s.memory[..ProgramStart] + program
                         + s.memory[ProgramStart + |program|..]))
  }

  /** A state after the timer update, and whether the tone is to sound. */
  datatype Tick = Tick(state: State, beep: bool)

  /** Chip8.update_timers, `due` standing for "more than 1/60 s accumulated":
   *  both timers count down to 0, and the tone sounds when ST reaches 0. */
  function UpdateTimers(s: State, due: bool): Tick {
    if !due then Tick(s, false)
    else
      var dt := if s.dt > 0 then s.dt - 1 else s.dt;
      if s.st > 0 then Tick(s.(dt := dt, st := s.st - 1), s.st - 1 == 0)
      else Tick(s.(dt := dt), false)
  }

  /** The big-endian opcode at memory[pc], `memory[pc] << 8 | memory[pc + 1]`. */
  function Fetch(memory: seq<nat>, pc: nat): nat
    requires pc + 1 < |memory|
  {
    BitOr(memory[pc] * 0x100, memory[pc + 1])
  }

  /** One cycle's outcome: the new state, the frame handed to the renderer if
   *  any, and whether the tone sounds. */
  datatype Cycle = Cycle(state: State, frame: Option<seq<nat>>, beep: bool)

  /** One iteration of Chip8.run_cycle. While a key is awaited nothing is fetched:
   *  a pressed key fills the waiting register and ends the wait. Otherwise the
   *  opcode at pc runs and a pending refresh hands the framebuffer over. The
   *  timers are updated in both cases. */
  function Step(s: State, key: Option<nat>, rnd: nat, due: bool): Result<Cycle>
    requires WellFormed(s)
    requires key.Some? ==> key.value < 16
  {
    if s.awaitingKey.Some? then
      var s1 := if key.Some? then s.(v := s.v[s.awaitingKey.value := key.value], awaitingKey := None)
                else s;
      var t := UpdateTimers(s1, due);
      Ok(Cycle(t.state, None, t.beep))
    else if s.pc + 1 >= |s.memory| then Err(IndexOutOfRange)
    else
      match Run(s, Fetch(s.memory, s.pc), key, rnd)
      case Err(f) => Err(f)
      case Ok(s2) =>
        var frame := if s2.refreshNeeded then Some(s2.display) else None;
        var t := UpdateTimers(s2.(refreshNeeded := false), due);
        Ok(Cycle(t.state, frame, t.beep))
  }
}
