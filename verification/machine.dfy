/** The CHIP-8 machine state as a value: the memory, the return-address stack,
 *  the registers V0..VF, I, the program counter, the stack pointer, the two
 *  timers, the 64x32 framebuffer and the cycle driver's two flags.
 *
 *  The emulator stores memory, stack and registers in arrays of unsigned 32-bit
 *  integers, so a cell holds any value in [0, 2^32) and a store outside that
 *  range fails; nothing masks a cell to 8 bits. The model keeps that width.
 */
module Machine {

  const MemorySize := 0x1000
  const StackSize := 0x10
  const RegisterCount := 0x10
  /** VF, the register the carry, borrow, shift and collision flags go to. */
  const Flag := 0xF
  const DisplayWidth := 64
  const DisplayHeight := 32
  const DisplaySize := DisplayWidth * DisplayHeight
  const ProgramStart := 0x200
  const HexSpriteSize := 5
  /** One more than the largest value a cell of an unsigned 32-bit array holds. */
  const CellLimit := 0x1_0000_0000

  /** A value an 8-bit cell holds. */
  type Byte = b: nat | b < 0x100

  /** The built-in glyphs of the hexadecimal digits 0..F, five rows each. */
  const HexChars: seq<Byte> := [
    0xF0, 0x90, 0x90, 0x90, 0xF0,
    0x20, 0x60, 0x20, 0x20, 0x70,
    0xF0, 0x10, 0xF0, 0x80, 0xF0,
    0xF0, 0x10, 0xF0, 0x10, 0xF0,
    0x90, 0x90, 0xF0, 0x10, 0x10,
    0xF0, 0x80, 0xF0, 0x10, 0xF0,
    0xF0, 0x80, 0xF0, 0x90, 0xF0,
    0xF0, 0x10, 0x20, 0x40, 0x40,
    0xF0, 0x90, 0xF0, 0x90, 0xF0,
    0xF0, 0x90, 0xF0, 0x10, 0xF0,
    0xF0, 0x90, 0xF0, 0x90, 0x90,
    0xE0, 0x90, 0xE0, 0x90, 0xE0,
    0xF0, 0x80, 0x80, 0x80, 0xF0,
    0xE0, 0x90, 0x90, 0x90, 0xE0,
    0xF0, 0x80, 0xF0, 0x80, 0xF0,
    0xF0, 0x80, 0xF0, 0x80, 0x80
  ]

  datatype Option<T> = None | Some(value: T)

  /** Why a cycle stops the machine: the exceptions the emulator can raise. */
  datatype Fault =
    | UnsupportedOpCode(opcode: nat)   // an opcode with top nibble 0 other than 00E0/00EE
    | AssertionFailed                  // one of the interpreter's `assert` statements
    | IndexOutOfRange                  // an array index past the end of memory or stack
    | Overflow                         // a store outside [0, 2^32) into a 32-bit array

  datatype Result<T> = Ok(value: T) | Err(fault: Fault)

  datatype State = State(
    memory: seq<nat>,
    stack: seq<nat>,
    v: seq<nat>,
    i: nat,
    pc: nat,
    sp: nat,
    dt: nat,
    st: nat,
    display: seq<nat>,
    /** The framebuffer changed since it was last handed to the renderer. */
    refreshNeeded: bool,
    /** Set by Fx0A: the register waiting for a key press; fetching is suspended. */
    awaitingKey: Option<nat>)

  /** The value can be stored in an unsigned 32-bit array cell. */
  predicate Fits(value: int) {
    0 <= value < CellLimit
  }

  /** What every reachable state satisfies: the fixed sizes, 32-bit cells,
   *  one-bit pixels, a stack pointer within the stack and a valid waiting register. */
  predicate WellFormed(s: State) {
    && |s.memory| == MemorySize
    && |s.stack| == StackSize
    && |s.v| == RegisterCount
    && |s.display| == DisplaySize
    && (forall k :: 0 <= k < |s.memory| ==> Fits(s.memory[k]))
    && (forall k :: 0 <= k < |s.stack| ==> Fits(s.stack[k]))
    && (forall k :: 0 <= k < |s.v| ==> Fits(s.v[k]))
    && (forall k :: 0 <= k < |s.display| ==> s.display[k] <= 1)
    && s.sp <= StackSize
    && (s.awaitingKey.Some? ==> s.awaitingKey.value < RegisterCount)
  }

  function Zeros(n: nat): (z: seq<nat>)
    ensures |z| == n && forall k :: 0 <= k < n ==> z[k] == 0
  {
    seq(n, _ => 0)
  }

  /** A framebuffer cell number. */
  type Pixel = k: nat | k < DisplaySize

  /** The framebuffer cell of the pixel at (x, y), both coordinates wrapped onto
   *  the 64x32 screen; the buffer is row-major. */
  function PixelIndex(x: int, y: int): (k: Pixel)
    ensures k % DisplayWidth == x % DisplayWidth
    ensures k / DisplayWidth == y % DisplayHeight
  {
    (y % DisplayHeight) * DisplayWidth + x % DisplayWidth
  }

  /** `b ^ 1`: flips the lowest bit. */
  function Flip(b: nat): nat {
    if b % 2 == 0 then b + 1 else b - 1
  }
}
