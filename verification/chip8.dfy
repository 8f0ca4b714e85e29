/** The emulator's two classes: Chip8, which owns the machine state and drives
 *  the fetch-execute-timer cycle, and Processor, which executes one opcode by
 *  updating that state in place. Every method is proved to follow the reference
 *  semantics in module Semantics.
 */
module Chip8Vm {
  import opened Bits
  import opened Machine
  import Semantics

  /** The outcome of a method is the one the reference semantics gives: the same
   *  fault, or no fault and the same new state. After a fault the emulator stops,
   *  and nothing is promised about the state beyond its being well formed. */
  predicate Agrees(expected: Result<State>, fault: Option<Fault>, now: State) {
    match expected
    case Ok(s) => fault == None && now == s
    case Err(f) => fault == Some(f)
  }

  class Chip8 {
    const memory: array<nat>
    const stack: array<nat>
    const registers: array<nat>
    const display: array<nat>
    var index: nat
    var dt: nat
    var st: nat
    var pc: nat
    var sp: nat
    var refreshNeeded: bool
    /** The register a pending Fx0A fills; None while fetching normally. */
    var awaitingKey: Option<nat>
    var processor: Processor?

    /** The machine state as a value. */
    function Snapshot(): State
      reads this, memory, stack, registers, display
    {
      State(memory[..], stack[..], registers[..], index, pc, sp, dt, st,
            display[..], refreshNeeded, awaitingKey)
    }

    ghost predicate Valid()
      reads this, memory, stack, registers, display
    {
      && memory != stack && memory != registers && memory != display
      && stack != registers && stack != display && registers != display
      && processor != null && processor.vm == this
      && WellFormed(Snapshot())
    }

    /** Chip8.__init__: zero-filled arrays, then reset. */
    constructor ()
      ensures Valid()
      ensures Snapshot() == Semantics.Reset(Semantics.PowerOn())
    {
      memory := new nat[MemorySize](_ => 0);
      stack := new nat[StackSize](_ => 0);
      registers := new nat[RegisterCount](_ => 0);
      display := new nat[DisplaySize](_ => 0);
      index, dt, st, pc, sp := 0, 0, 0, 0, 0;
      refreshNeeded := false;
      awaitingKey := None;
      processor := null;
      new;
      processor := new Processor(this);
      assert memory[..] == Zeros(MemorySize);
      assert stack[..] == Zeros(StackSize);
      assert registers[..] == Zeros(RegisterCount);
      assert display[..] == Zeros(DisplaySize);
      Reset();
    }

    /** Chip8.reset_display. */
    method ResetDisplay()
      requires Valid()
      modifies this, display
      ensures Valid()
      ensures Snapshot() == Semantics.ResetDisplay(old(Snapshot()))
    {
      var i := 0;
      while i < display.Length
        modifies display
        invariant 0 <= i <= display.Length
        invariant forall k :: 0 <= k < i ==> display[k] == 0
        invariant forall k :: i <= k < display.Length ==> display[k] == old(display[k])
      {
        display[i] := 0;
        i := i + 1;
      }
      refreshNeeded := true;
      assert display[..] == Zeros(DisplaySize);
    }

    /** Chip8.reset. */
    method Reset()
      requires Valid()
      modifies this, memory, stack, registers, display
      ensures Valid()
      ensures Snapshot() == Semantics.Reset(old(Snapshot()))
    {
      ClearMemory();
      ClearStackAndRegisters();
      ResetDisplay();
      index := 0;
      dt := 0;
      st := 0;
      pc := ProgramStart;
      sp := 0;
    }

    /** The first two loops of Chip8.reset: the glyphs, then zeros up to 0xFFE. */
    method ClearMemory()
      requires memory.Length == MemorySize
      modifies memory
      ensures memory[..] == HexChars + Zeros(0xFFF - |HexChars|) + [old(memory[0xFFF])]
    {
      CopyGlyphs();
      ZeroMemory();
      assert memory[..] == HexChars + Zeros(0xFFF - |HexChars|) + [old(memory[0xFFF])];
    }

    /** The first loop of Chip8.reset: the glyphs at 0..79. */
    method CopyGlyphs()
      requires memory.Length == MemorySize
      modifies memory
      ensures forall k :: 0 <= k < |HexChars| ==> memory[k] == HexChars[k]
      ensures forall k :: |HexChars| <= k < MemorySize ==> memory[k] == old(memory[k])
    {
      var i := 0;
      while i < |HexChars|
        invariant 0 <= i <= |HexChars|
        invariant forall k :: 0 <= k < i ==> memory[k] == HexChars[k]
        invariant forall k :: i <= k < MemorySize ==> memory[k] == old(memory[k])
      {
        memory[i] := HexChars[i];
        i := i + 1;
      }
    }

    /** The second loop of Chip8.reset: zeros from 80 up to 0xFFE. */
    method ZeroMemory()
      requires memory.Length == MemorySize
      modifies memory
      ensures forall k :: 0 <= k < |HexChars| ==> memory[k] == old(memory[k])
      ensures forall k :: |HexChars| <= k < 0xFFF ==> memory[k] == 0
      ensures memory[0xFFF] == old(memory[0xFFF])
    {
      var i := |HexChars|;
      while i < 0xFFF
        invariant |HexChars| <= i <= 0xFFF
        invariant forall k :: 0 <= k < |HexChars| ==> memory[k] == old(memory[k])
        invariant forall k :: |HexChars| <= k < i ==> memory[k] == 0
        invariant memory[0xFFF] == old(memory[0xFFF])
      {
        memory[i] := 0;
        i := i + 1;
      }
    }

    /** The third loop of Chip8.reset: stack[0..14] and V0..VE zeroed. */
    method ClearStackAndRegisters()
      requires stack.Length == StackSize && registers.Length == RegisterCount
      requires stack != registers
      modifies stack, registers
      ensures stack[..] == Zeros(0xF) + [old(stack[0xF])]
      ensures registers[..] == Zeros(0xF) + [old(registers[0xF])]
    {
      var i := 0;
      while i < 0xF
        modifies stack, registers
        invariant 0 <= i <= 0xF
        invariant forall k :: 0 <= k < i ==> stack[k] == 0 && registers[k] == 0
        invariant forall k :: i <= k < StackSize ==> stack[k] == old(stack[k])
        invariant forall k :: i <= k < RegisterCount ==> registers[k] == old(registers[k])
      {
        stack[i] := 0;
        registers[i] := 0;
        i := i + 1;
      }
      assert stack[..] == Zeros(0xF) + [old(stack[0xF])];
      assert registers[..] == Zeros(0xF) + [old(registers[0xF])];
    }

    /** Chip8.load, given the file's bytes: copied to memory from 0x200 on. */
    method Load(program: seq<nat>) returns (fault: Option<Fault>)
      requires Valid()
      requires forall k :: 0 <= k < |program| ==> program[k] < 0x100
      modifies memory
      ensures Valid()
      ensures Agrees(Semantics.Load(old(Snapshot()), program), fault, Snapshot())
    {
      var addr := ProgramStart;
      var k := 0;
      while k < |program|
        modifies memory
        invariant 0 <= k <= |program| && addr == ProgramStart + k
        invariant addr <= memory.Length
        invariant forall j :: 0 <= j < memory.Length ==>
          memory[j] == if ProgramStart <= j < addr then program[j - ProgramStart] else old(memory[j])
      {
        if addr >= memory.Length {
          return Some(IndexOutOfRange);
        }
        memory[addr] := program[k];
        addr := addr + 1;
        k := k + 1;
      }
      ghost var s := old(Snapshot());
      assert memory[..] == s.memory[..ProgramStart] + program + s.memory[ProgramStart + |program|..];
      return None;
    }

    /** Chip8.update_timers; `due` says whether a 60 Hz tick has elapsed, and the
     *  result whether the renderer is to beep. */
    method UpdateTimers(due: bool) returns (beep: bool)
      requires Valid()
      modifies this
      ensures Valid()
      ensures Semantics.UpdateTimers(old(Snapshot()), due) == Semantics.Tick(Snapshot(), beep)
    {
      beep := false;
      if due {
        if dt > 0 {
          dt := dt - 1;
        }
        if st > 0 {
          st := st - 1;
          if st <= 0 {
            beep := true;
          }
        }
      }
    }

    /** Chip8.set_pixel: wrap (x, y) onto the screen, flip that pixel and report
     *  whether it is now off. */
    method SetPixel(x: int, y: int) returns (collision: bool)
      requires Valid()
      modifies this, display
      ensures Valid()
      ensures Snapshot() == old(Snapshot()).(
        display := old(display[..])[PixelIndex(x, y) := Flip(old(display[PixelIndex(x, y)]))],
        refreshNeeded := true)
      ensures collision <==> display[PixelIndex(x, y)] == 0
    {
      var px, xTurns := Wrap(x, DisplayWidth);
      var py, yTurns := Wrap(y, DisplayHeight);
      var coord := py * DisplayWidth + px;
      assert coord == PixelIndex(x, y);
      display[coord] := Flip(display[coord]);
      refreshNeeded := true;
      collision := display[coord] == 0;
    }

    /** One iteration of Chip8.run_cycle. `key` is the key source's current value,
     *  `rnd` the byte Cxnn draws, `due` whether the timers are due; the results
     *  are the fault that stops the loop, the framebuffer handed to the renderer
     *  and whether it beeps. */
    method Step(key: Option<nat>, rnd: nat, due: bool)
      returns (fault: Option<Fault>, frame: Option<seq<nat>>, beep: bool)
      requires Valid()
      requires key.Some? ==> key.value < 16
      modifies this, memory, stack, registers, display
      ensures Valid()
      ensures match Semantics.Step(old(Snapshot()), key, rnd, due)
        case Ok(c) => fault == None && frame == c.frame && beep == c.beep && Snapshot() == c.state
        case Err(f) => fault == Some(f)
    {
      fault, frame, beep := None, None, false;
      if awaitingKey.Some? {
        if key.Some? {
          // the key listener Fx0A installed
          registers[awaitingKey.value] := key.value;
          awaitingKey := None;
        }
      } else {
        if pc + 1 >= memory.Length {
          return Some(IndexOutOfRange), None, false;
        }
        var opcode := BitOr(memory[pc] * 0x100, memory[pc + 1]);
        fault := processor.Run(opcode, key, rnd);
        if fault.Some? {
          return;
        }
        if refreshNeeded {
          // refresh_display
          frame := Some(display[..]);
          refreshNeeded := false;
        }
      }
      beep := UpdateTimers(due);
    }
  }

  class Processor {
    const vm: Chip8

    constructor (vm: Chip8)
      ensures this.vm == vm
    {
      this.vm := vm;
    }

    /** Processor.run. */
    method Run(opcode: nat, key: Option<nat>, rnd: nat) returns (fault: Option<Fault>)
      requires vm.Valid()
      modifies vm, vm.memory, vm.stack, vm.registers, vm.display
      ensures vm.Valid()
      ensures Agrees(Semantics.Run(old(vm.Snapshot()), opcode, key, rnd), fault, vm.Snapshot())
    {
      var nibble := Semantics.Nibble(opcode);
      vm.pc := vm.pc + 2;

      if nibble == 0x0 {
        if opcode == 0x00E0 {
          ClearDisplay();
          return None;
        }
        if opcode == 0x00EE {
          fault := ReturnFromSubroutine();
          return;
        }
        return Some(UnsupportedOpCode(opcode));
      }
      if nibble == 0x1 || nibble == 0xB {
        fault := Jump(opcode);
        return;
      }
      if nibble == 0x2 {
        fault := Call(opcode);
        return;
      }
      if nibble in {0x3, 0x4, 0x5, 0x9, 0xE} {
        fault := Skip(opcode, key);
        return;
      }
      if nibble in {0x6, 0x7, 0x8, 0xA, 0xC, 0xF} {
        fault := SetRegister(opcode, rnd);
        return;
      }
      fault := Display(opcode);
    }

    /** 00E0. */
    method ClearDisplay()
      requires vm.Valid()
      modifies vm, vm.display
      ensures vm.Valid()
      ensures vm.Snapshot() == Semantics.ResetDisplay(old(vm.Snapshot()))
    {
      vm.ResetDisplay();
    }

    /** 00EE. */
    method ReturnFromSubroutine() returns (fault: Option<Fault>)
      requires vm.Valid()
      modifies vm
      ensures vm.Valid()
      ensures Agrees(Semantics.ReturnFromSubroutine(old(vm.Snapshot())), fault, vm.Snapshot())
    {
      if vm.sp == 0 {
        // sp - 1 < 0
        return Some(AssertionFailed);
      }
      vm.sp := vm.sp - 1;
      vm.pc := vm.stack[vm.sp];
      return None;
    }

    /** 1nnn and Bnnn. */
    method Jump(opcode: nat) returns (fault: Option<Fault>)
      requires vm.Valid()
      requires Semantics.Nibble(opcode) == 0x1 || Semantics.Nibble(opcode) == 0xB
      modifies vm
      ensures vm.Valid()
      ensures Agrees(Semantics.Jump(old(vm.Snapshot()), opcode), fault, vm.Snapshot())
    {
      var jumpAddr: Option<nat> := None;
      if Semantics.Nibble(opcode) == 0x1 {
        var addr := Semantics.Low12(opcode);
        if addr < 0x200 {
          return Some(AssertionFailed);
        }
        jumpAddr := Some(addr);
      } else if Semantics.Nibble(opcode) == 0xB {
        var addr := Semantics.Low12(opcode) + vm.registers[0x0];
        if addr < 0x200 || addr > 0xFFFF {
          return Some(AssertionFailed);
        }
        jumpAddr := Some(addr);
      }
      if jumpAddr.Some? {
        vm.pc := jumpAddr.value;
      }
      return None;
    }

    /** 2nnn. */
    method Call(opcode: nat) returns (fault: Option<Fault>)
      requires vm.Valid()
      modifies vm, vm.stack
      ensures vm.Valid()
      ensures Agrees(Semantics.Call(old(vm.Snapshot()), opcode), fault, vm.Snapshot())
    {
      var addr := Semantics.Low12(opcode);
      if vm.sp >= vm.stack.Length {
        return Some(IndexOutOfRange);
      }
      if !Fits(vm.pc) {
        return Some(Overflow);
      }
      vm.stack[vm.sp] := vm.pc;
      vm.sp := vm.sp + 1;
      assert vm.sp <= 0xFF;
      vm.pc := addr;
      return None;
    }

    /** 3xnn, 4xnn, 5xy0, 9xy0, Ex9E and ExA1. */
    method Skip(opcode: nat, key: Option<nat>) returns (fault: Option<Fault>)
      requires vm.Valid()
      modifies vm
      ensures vm.Valid()
      ensures Agrees(Semantics.Skip(old(vm.Snapshot()), opcode, key), fault, vm.Snapshot())
    {
      var registers := vm.registers;
      var x, y := Semantics.RegX(opcode), Semantics.RegY(opcode);
      var nibble := Semantics.Nibble(opcode);
      var skip := false;
      if nibble == 0x3 {
        if registers[x] == Semantics.Low8(opcode) {
          skip := true;
        }
      } else if nibble == 0x4 {
        if registers[x] != Semantics.Low8(opcode) {
          skip := true;
        }
      } else if nibble == 0x5 && Semantics.Low4(opcode) == 0x0 {
        if registers[x] == registers[y] {
          skip := true;
        }
      } else if nibble == 0x9 && Semantics.Low4(opcode) == 0x0 {
        if registers[x] != registers[y] {
          skip := true;
        }
      } else if nibble == 0xE && Semantics.Low8(opcode) == 0x9E {
        if Semantics.KeyIs(key, registers[x]) {
          skip := true;
        }
      } else if nibble == 0xE && Semantics.Low8(opcode) == 0xA1 {
        if !Semantics.KeyIs(key, registers[x]) {
          skip := true;
        }
      }
      if skip {
        vm.pc := vm.pc + 2;
        if vm.pc > 0xFFFF {
          return Some(AssertionFailed);
        }
      }
      return None;
    }

    /** The register operations 6xnn, 7xnn, 8xy_, Annn, Cxnn and Fx__; `rnd` is
     *  the byte drawn for Cxnn. */
    method SetRegister(opcode: nat, rnd: nat) returns (fault: Option<Fault>)
      requires vm.Valid()
      modifies vm, vm.memory, vm.registers
      ensures vm.Valid()
      ensures Agrees(Semantics.SetRegister(old(vm.Snapshot()), opcode, rnd), fault, vm.Snapshot())
    {
      var registers := vm.registers;
      var x, y := Semantics.RegX(opcode), Semantics.RegY(opcode);
      var nibble := Semantics.Nibble(opcode);
      if nibble == 0x6 {
        registers[x] := Semantics.Low8(opcode);
      } else if nibble == 0x7 {
        var sum := registers[x] + Semantics.Low8(opcode);
        if !Fits(sum) {
          return Some(Overflow);
        }
        registers[x] := sum;
        if registers[x] > 0xFF {
          registers[x] := registers[x] - (0xFF + 1);
        }
      } else if nibble == 0x8 {
        // VF is reserved
        if x >= Flag || y >= Flag {
          return Some(AssertionFailed);
        }
        fault := Arithmetic(opcode);
        return;
      } else if nibble == 0xA {
        vm.index := Semantics.Low12(opcode);
      } else if nibble == 0xC {
        var r := BitAnd(rnd, Semantics.Low8(opcode));
        if !Fits(r) {
          return Some(Overflow);
        }
        registers[x] := r;
      } else if nibble == 0xF {
        fault := Misc(opcode);
        return;
      }
      return None;
    }

    /** 8xy0..8xyE, once x and y are known not to be VF. */
    method Arithmetic(opcode: nat) returns (fault: Option<Fault>)
      requires vm.Valid()
      requires Semantics.RegX(opcode) < Flag && Semantics.RegY(opcode) < Flag
      modifies vm.registers
      ensures vm.Valid()
      ensures Agrees(Semantics.Arithmetic(old(vm.Snapshot()), opcode), fault, vm.Snapshot())
    {
      var op := Semantics.Low4(opcode);
      if op <= 0x3 {
        fault := Logical(opcode);
      } else if op == 0x4 {
        fault := Add(opcode);
      } else if op == 0x5 || op == 0x7 {
        fault := Subtract(opcode);
      } else if op == 0x6 || op == 0xE {
        fault := Shift(opcode);
      } else {
        fault := None;
      }
    }

    /** 8xy0..8xy3: copy, OR, AND, XOR. */
    method Logical(opcode: nat) returns (fault: Option<Fault>)
      requires vm.Valid()
      requires Semantics.RegX(opcode) < Flag && Semantics.RegY(opcode) < Flag
      requires Semantics.Low4(opcode) <= 0x3
      modifies vm.registers
      ensures vm.Valid()
      ensures Agrees(Semantics.Arithmetic(old(vm.Snapshot()), opcode), fault, vm.Snapshot())
    {
      var registers := vm.registers;
      var x, y := Semantics.RegX(opcode), Semantics.RegY(opcode);
      var op := Semantics.Low4(opcode);
      if op == 0x0 {
        registers[x] := registers[y];
        return None;
      }
      var r := if op == 0x1 then BitOr(registers[x], registers[y])
               else if op == 0x2 then BitAnd(registers[x], registers[y])
               else BitXor(registers[x], registers[y]);
      if !Fits(r) {
        return Some(Overflow);
      }
      registers[x] := r;
      return None;
    }

    /** 8xy4: addition, VF the carry out of the low byte. */
    method Add(opcode: nat) returns (fault: Option<Fault>)
      requires vm.Valid()
      requires Semantics.RegX(opcode) < Flag && Semantics.RegY(opcode) < Flag
      requires Semantics.Low4(opcode) == 0x4
      modifies vm.registers
      ensures vm.Valid()
      ensures Agrees(Semantics.Arithmetic(old(vm.Snapshot()), opcode), fault, vm.Snapshot())
    {
      var registers := vm.registers;
      var x, y := Semantics.RegX(opcode), Semantics.RegY(opcode);
      var sum := registers[x] + registers[y];
      if !Fits(sum) {
        return Some(Overflow);
      }
      registers[x] := sum;
      registers[Flag] := if registers[x] > 0xFF then 1 else 0;
      if registers[x] > 0xFF {
        registers[x] := registers[x] - (0xFF + 1);
      }
      return None;
    }

    /** 8xy5 and 8xy7: Vx - Vy and Vy - Vx, VF the borrow. */
    method Subtract(opcode: nat) returns (fault: Option<Fault>)
      requires vm.Valid()
      requires Semantics.RegX(opcode) < Flag && Semantics.RegY(opcode) < Flag
      requires Semantics.Low4(opcode) in {0x5, 0x7}
      modifies vm.registers
      ensures vm.Valid()
      ensures Agrees(Semantics.Arithmetic(old(vm.Snapshot()), opcode), fault, vm.Snapshot())
    {
      var registers := vm.registers;
      var x, y := Semantics.RegX(opcode), Semantics.RegY(opcode);
      var valX: int;
      if Semantics.Low4(opcode) == 0x5 {
        registers[Flag] := if registers[y] > registers[x] then 1 else 0;
        valX := registers[x];
        valX := valX - registers[y];
      } else {
        registers[Flag] := if registers[x] > registers[y] then 1 else 0;
        valX := registers[y] as int - registers[x];
      }
      if valX < 0 {
        valX := valX + (0xFF + 1);
      }
      if !Fits(valX) {
        return Some(Overflow);
      }
      registers[x] := valX;
      return None;
    }

    /** 8xy6, 8xyE: shifts right and left by one, the bit shifted out going to VF. */
    method Shift(opcode: nat) returns (fault: Option<Fault>)
      requires vm.Valid()
      requires Semantics.RegX(opcode) < Flag && Semantics.RegY(opcode) < Flag
      requires Semantics.Low4(opcode) in {0x6, 0xE}
      modifies vm.registers
      ensures vm.Valid()
      ensures Agrees(Semantics.Arithmetic(old(vm.Snapshot()), opcode), fault, vm.Snapshot())
    {
      var registers := vm.registers;
      var x := Semantics.RegX(opcode);
      if Semantics.Low4(opcode) == 0x6 {
        registers[Flag] := registers[x] % 2;
        registers[x] := registers[x] / 2;
      } else {
        registers[Flag] := (registers[x] / 0x80) % 2;
        var shifted := registers[x] * 2;
        if !Fits(shifted) {
          return Some(Overflow);
        }
        registers[x] := shifted;
      }
      return None;
    }

    /** The Fx__ group. */
    method Misc(opcode: nat) returns (fault: Option<Fault>)
      requires vm.Valid()
      modifies vm, vm.memory, vm.registers
      ensures vm.Valid()
      ensures Agrees(Semantics.Misc(old(vm.Snapshot()), opcode), fault, vm.Snapshot())
    {
      var x := Semantics.RegX(opcode);
      var sub := Semantics.Low8(opcode);
      if sub == 0x07 {
        if !Fits(vm.dt) {
          return Some(Overflow);
        }
        vm.registers[x] := vm.dt;
      } else if sub == 0x0A {
        // the key listener is replaced by the register it fills
        vm.awaitingKey := Some(x);
      } else if sub == 0x15 {
        vm.dt := vm.registers[x];
      } else if sub == 0x18 {
        vm.st := vm.registers[x];
      } else if sub == 0x1E {
        vm.index := vm.index + vm.registers[x];
      } else if sub == 0x29 {
        vm.index := vm.registers[x] * HexSpriteSize;
      } else if sub == 0x33 {
        fault := StoreBcd(x);
        return;
      } else if sub == 0x55 {
        fault := StoreRegisters(x);
        return;
      } else if sub == 0x65 {
        fault := LoadRegisters(x);
        return;
      }
      return None;
    }

    /** Fx33: the loop from I+2 down to I, one decimal digit per cell. */
    method StoreBcd(x: nat) returns (fault: Option<Fault>)
      requires vm.Valid() && x < RegisterCount
      modifies vm.memory
      ensures vm.Valid()
      ensures Agrees(Semantics.StoreBcd(old(vm.Snapshot()), x), fault, vm.Snapshot())
    {
      var addr := vm.index;
      var n := vm.registers[x];
      var number := n;
      var k: int := addr + 2;
      while k >= addr
        modifies vm.memory
        invariant addr - 1 <= k <= addr + 2
        invariant k < addr + 2 ==> addr + 2 < vm.memory.Length
        invariant k == addr + 2 ==> number == n
        invariant k == addr + 1 ==> number == n / 10
        invariant k == addr ==> number == n / 100
        invariant forall j :: 0 <= j < vm.memory.Length ==>
          vm.memory[j] == if k < j <= addr + 2 then Semantics.Digits(n)[j - addr] else old(vm.memory[j])
      {
        if k >= vm.memory.Length {
          return Some(IndexOutOfRange);
        }
        vm.memory[k] := number % 10;
        assert (n / 10) / 10 == n / 100;
        number := number / 10;
        k := k - 1;
      }
      return None;
    }

    /** Fx55: V0..Vx copied to memory from I on. */
    method StoreRegisters(x: nat) returns (fault: Option<Fault>)
      requires vm.Valid() && x < RegisterCount
      modifies vm.memory
      ensures vm.Valid()
      ensures Agrees(Semantics.StoreRegisters(old(vm.Snapshot()), x), fault, vm.Snapshot())
    {
      var addr := vm.index;
      var r := 0;
      while r < x + 1
        modifies vm.memory
        invariant 0 <= r <= x + 1
        invariant r > 0 ==> addr + r - 1 < vm.memory.Length
        invariant forall j :: 0 <= j < vm.memory.Length ==>
          vm.memory[j] == if addr <= j < addr + r then vm.registers[j - addr] else old(vm.memory[j])
      {
        if addr + r >= vm.memory.Length {
          return Some(IndexOutOfRange);
        }
        vm.memory[addr + r] := vm.registers[r];
        r := r + 1;
      }
      return None;
    }

    /** Fx65: memory from I on copied to V0..Vx. */
    method LoadRegisters(x: nat) returns (fault: Option<Fault>)
      requires vm.Valid() && x < RegisterCount
      modifies vm.registers
      ensures vm.Valid()
      ensures Agrees(Semantics.LoadRegisters(old(vm.Snapshot()), x), fault, vm.Snapshot())
    {
      var addr := vm.index;
      var r := 0;
      while r < x + 1
        modifies vm.registers
        invariant 0 <= r <= x + 1
        invariant r > 0 ==> addr + r - 1 < vm.memory.Length
        invariant forall j :: 0 <= j < vm.registers.Length ==>
          vm.registers[j] == if j < r then vm.memory[addr + j] else old(vm.registers[j])
      {
        if addr + r >= vm.memory.Length {
          return Some(IndexOutOfRange);
        }
        vm.registers[r] := vm.memory[addr + r];
        r := r + 1;
      }
      return None;
    }

    /** Dxyn: the two nested loops over the sprite's rows and columns. */
    method Display(opcode: nat) returns (fault: Option<Fault>)
      requires vm.Valid()
      modifies vm, vm.registers, vm.display
      ensures vm.Valid()
      ensures Agrees(Semantics.Display(old(vm.Snapshot()), opcode), fault, vm.Snapshot())
    {
      var addr := vm.index;
      var n := Semantics.Low4(opcode);
      var x, y := Semantics.RegX(opcode), Semantics.RegY(opcode);
      var registerX := vm.registers[x];
      var registerY := vm.registers[y];
      ghost var s := old(vm.Snapshot());

      vm.registers[Flag] := 0;
      fault := DrawSprite(addr, n, registerX, registerY, s);
    }

    /** The outer loop of Dxyn: the sprite's rows, read from memory[addr..]. */
    method DrawSprite(addr: nat, n: nat, registerX: nat, registerY: nat, ghost s: State)
      returns (fault: Option<Fault>)
      requires vm.Valid() && WellFormed(s)
      requires DrawnSoFar(s, vm.Snapshot(), [])
      modifies vm, vm.registers, vm.display
      ensures vm.Valid()
      ensures fault.Some? <==> n > 0 && addr + n > MemorySize
      ensures fault.Some? ==> fault.value == IndexOutOfRange
      ensures fault.None? ==> DrawnSoFar(s, vm.Snapshot(), Semantics.SpriteTargets(s.memory, addr, n, registerX, registerY))
    {
      var row := 0;
      while row < n
        invariant 0 <= row <= n
        invariant row > 0 ==> addr + row <= MemorySize
        invariant vm.Valid()
        invariant DrawnSoFar(s, vm.Snapshot(), Semantics.SpriteTargets(s.memory, addr, row, registerX, registerY))
      {
        if addr + row >= MemorySize {
          return Some(IndexOutOfRange);
        }
        DrawRow(addr, row, registerX, registerY, s);
        row := row + 1;
      }
      return None;
    }

    /** One pass of the outer loop of Dxyn: row `row` of the sprite, read from
     *  memory[addr + row] and drawn at (rx, ry + row) column by column; the row
     *  is shifted left and its bit 0x80 tested at each column. */
    method DrawRow(addr: nat, row: nat, rx: nat, ry: nat, ghost s: State)
      requires vm.Valid() && WellFormed(s)
      requires addr + row < MemorySize
      requires DrawnSoFar(s, vm.Snapshot(), Semantics.SpriteTargets(s.memory, addr, row, rx, ry))
      modifies vm, vm.registers, vm.display
      ensures vm.Valid()
      ensures DrawnSoFar(s, vm.Snapshot(), Semantics.SpriteTargets(s.memory, addr, row + 1, rx, ry))
    {
      assert vm.memory[..] == s.memory;
      var sprite := vm.memory[addr + row];
      assert sprite == s.memory[addr + row];
      ghost var done := Semantics.SpriteTargets(s.memory, addr, row, rx, ry);
      var bits := sprite;
      var col := 0;
      assert done + Semantics.RowTargets(sprite, rx, ry + row, 0) == done;
      while col < 8
        invariant 0 <= col <= 8
        invariant bits == sprite * Pow2(col)
        invariant vm.Valid()
        invariant DrawnSoFar(s, vm.Snapshot(), done + Semantics.RowTargets(sprite, rx, ry + row, col))
      {
        DrawColumn(bits, sprite, rx, ry + row, col, s, done);
        ShiftOnceMore(sprite, col);
        bits := bits * 2;
        col := col + 1;
      }
      SpriteTargetsNext(s.memory, addr, row, rx, ry);
    }

    /** The body of the inner draw loop: when bit 0x80 of the shifted row is set,
     *  set_pixel, and VF := 1 on a collision. */
    method DrawColumn(bits: nat, sprite: nat, px: nat, py: nat, col: nat,
                      ghost s: State, ghost done: seq<Pixel>)
      requires vm.Valid() && WellFormed(s)
      requires bits == sprite * Pow2(col)
      requires DrawnSoFar(s, vm.Snapshot(), done + Semantics.RowTargets(sprite, px, py, col))
      modifies vm, vm.registers, vm.display
      ensures vm.Valid()
      ensures DrawnSoFar(s, vm.Snapshot(), done + Semantics.RowTargets(sprite, px, py, col + 1))
    {
      ghost var before := done + Semantics.RowTargets(sprite, px, py, col);
      RowTargetsNext(done, sprite, px, py, col);
      if (bits / 0x80) % 2 == 1 {
        assert Semantics.SpriteBit(sprite, col);
        assert done + Semantics.RowTargets(sprite, px, py, col + 1)
               == before + [PixelIndex(px + col, py)];
        DrawPixel(px + col, py, s, before);
      } else {
        assert !Semantics.SpriteBit(sprite, col);
        assert done + Semantics.RowTargets(sprite, px, py, col + 1) == before;
      }
    }

    /** A set sprite bit: set_pixel at (x, y), and VF := 1 if it went off. */
    method DrawPixel(x: nat, y: nat, ghost s: State, ghost before: seq<Pixel>)
      requires vm.Valid() && WellFormed(s)
      requires DrawnSoFar(s, vm.Snapshot(), before)
      modifies vm, vm.registers, vm.display
      ensures vm.Valid()
      ensures DrawnSoFar(s, vm.Snapshot(), before + [PixelIndex(x, y)])
    {
      ghost var prev := vm.Snapshot();
      ghost var t := PixelIndex(x, y);
      var collision := vm.SetPixel(x, y);
      ghost var lit := vm.Snapshot();
      assert lit == prev.(display := prev.display[t := Flip(prev.display[t])], refreshNeeded := true);
      if collision {
        vm.registers[Flag] := 1;
        assert vm.Snapshot() == lit.(v := lit.v[Flag := 1]);
      }
      DrawOnePixel(s, prev, vm.Snapshot(), before, t);
    }
  }

  /** The wrap-around loops of Chip8.set_pixel for one coordinate. */
  method Wrap(v: int, size: nat) returns (w: int, ghost turns: int)
    requires size > 0
    ensures 0 <= w < size && v == turns * size + w
  {
    w, turns := v, 0;
    while w >= size
      invariant v == turns * size + w
    {
      w, turns := w - size, turns + 1;
    }
    while w < 0
      invariant w < size && v == turns * size + w
      decreases -w
    {
      w, turns := w + size, turns - 1;
    }
  }

  /** Drawing row `row` of a sprite adds the targets of that row. */
  lemma SpriteTargetsNext(memory: seq<nat>, addr: nat, row: nat, rx: nat, ry: nat)
    requires addr + row < |memory|
    ensures Semantics.SpriteTargets(memory, addr, row + 1, rx, ry)
            == Semantics.SpriteTargets(memory, addr, row, rx, ry)
               + Semantics.RowTargets(memory[addr + row], rx, ry + row, 8)
  {
  }

  /** Drawing column col of a row adds its target exactly when its bit is set. */
  lemma RowTargetsNext(done: seq<Pixel>, sprite: nat, px: nat, py: nat, col: nat)
    ensures done + Semantics.RowTargets(sprite, px, py, col + 1)
            == done + Semantics.RowTargets(sprite, px, py, col)
               + (if Semantics.SpriteBit(sprite, col) then [PixelIndex(px + col, py)] else [])
  {
    assert Semantics.RowTargets(sprite, px, py, col + 1)
           == Semantics.RowTargets(sprite, px, py, col)
              + (if Semantics.SpriteBit(sprite, col) then [PixelIndex(px + col, py)] else []);
  }

  /** One more pixel drawn: flipped, refresh due, VF set if it went off. */
  lemma DrawOnePixel(s: State, prev: State, now: State, ts: seq<Pixel>, t: Pixel)
    requires WellFormed(s) && |prev.display| == DisplaySize && |prev.v| == RegisterCount
    requires DrawnSoFar(s, prev, ts)
    requires var lit := Flip(prev.display[t]);
             now == prev.(display := prev.display[t := lit], refreshNeeded := true,
                          v := if lit == 0 then prev.v[Flag := 1] else prev.v)
    ensures DrawnSoFar(s, now, ts + [t])
  {
    Semantics.ToggleAllSnoc(s.display, ts, t);
  }

  /** `now` is the state `s` after VF := 0 and the toggles `ts`. */
  ghost predicate DrawnSoFar(s: State, now: State, ts: seq<Pixel>)
    requires WellFormed(s)
  {
    var drawn := Semantics.ToggleAll(s.display, ts);
    now == s.(display := drawn.display,
              v := s.v[Flag := if drawn.collision then 1 else 0],
              refreshNeeded := s.refreshNeeded || |ts| > 0)
  }
}
