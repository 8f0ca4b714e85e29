/** What the interpreter promises, stated over the reference semantics: the
 *  dispatch, the call stack, the register arithmetic and its VF flag, BCD, the
 *  block transfers, the fetch, the key wait, the timers, reset and load, and
 *  that every step keeps the machine well formed.
 */
module Properties {
  import opened Bits
  import opened Machine
  import opened Semantics
  import DrawProperties

  // ---------------------------------------------------------------- dispatch

  /** Only top nibble 0 raises UnsupportedOpCode, and it does so for every opcode
   *  of that nibble but 00E0 and 00EE. */
  lemma UnsupportedOpCodeExactly(s: State, opcode: nat, key: Option<nat>, rnd: nat)
    requires WellFormed(s)
    ensures var r := Run(s, opcode, key, rnd);
            (r.Err? && r.fault.UnsupportedOpCode?)
            <==> Nibble(opcode) == 0 && opcode != 0x00E0 && opcode != 0x00EE
  {
    var s1 := s.(pc := s.pc + 2);
    var r := Run(s, opcode, key, rnd);
    var n := Nibble(opcode);
    if n == 0x8 {
      var x, y := RegX(opcode), RegY(opcode);
      if x < Flag && y < Flag {
        assert r == Arithmetic(s1, opcode);
      }
    } else if n == 0xF {
      assert r == Misc(s1, opcode);
    }
  }

  /** Every opcode that neither jumps, calls, returns nor skips leaves pc two
   *  bytes further on: run advances pc before the handler runs. */
  lemma RunAdvancesPc(s: State, opcode: nat, key: Option<nat>, rnd: nat)
    requires WellFormed(s)
    requires Nibble(opcode) in {0x6, 0x7, 0x8, 0xA, 0xC, 0xD, 0xF} || opcode == 0x00E0
    ensures var r := Run(s, opcode, key, rnd);
            r.Ok? ==> r.value.pc == s.pc + 2
  {
    var s1 := s.(pc := s.pc + 2);
    var n := Nibble(opcode);
    if n == 0x8 && RegX(opcode) < Flag && RegY(opcode) < Flag {
      assert Run(s, opcode, key, rnd) == Arithmetic(s1, opcode);
    } else if n == 0xF {
      assert Run(s, opcode, key, rnd) == Misc(s1, opcode);
    }
  }

  // ---------------------------------------------------------- call and return

  /** The state after a successful 2nnn from s. */
  function Pushed(s: State, opcode: nat): (c: State)
    requires s.sp < |s.stack|
    ensures |c.stack| == |s.stack| && c.sp == s.sp + 1
  {
    s.(stack := s.stack[s.sp := s.pc + 2], sp := s.sp + 1, pc := Low12(opcode))
  }

  /** 2nnn fails exactly when the stack is full (an index past its 16 cells) or
   *  the return address does not fit a cell; the `sp <= 0xFF` assertion never
   *  fires. Otherwise it pushes the advanced pc and jumps to nnn. */
  lemma CallOutcome(s: State, opcode: nat, key: Option<nat>, rnd: nat)
    requires WellFormed(s) && Nibble(opcode) == 0x2
    ensures var r := Run(s, opcode, key, rnd);
            && (r.Err? <==> s.sp >= StackSize || !Fits(s.pc + 2))
            && (r.Err? ==> r.fault != AssertionFailed)
            && (r.Ok? ==> r.value == Pushed(s, opcode))
  {
  }

  /** 00EE after 2nnn returns to the instruction after the call, with sp as it
   *  was before the call; only the stack cell written by the call differs. */
  lemma CallThenReturn(s: State, opcode: nat, key: Option<nat>, rnd: nat)
    requires WellFormed(s) && Nibble(opcode) == 0x2
    requires s.sp < StackSize && Fits(s.pc + 2)
    ensures Run(s, opcode, key, rnd) == Ok(Pushed(s, opcode))
    ensures WellFormed(Pushed(s, opcode))
    ensures Run(Pushed(s, opcode), 0x00EE, key, rnd)
            == Ok(s.(stack := s.stack[s.sp := s.pc + 2], pc := s.pc + 2))
  {
    var c := Pushed(s, opcode);
    assert Run(c, 0x00EE, key, rnd) == ReturnFromSubroutine(c.(pc := c.pc + 2));
  }

  /** 00EE on an empty stack trips the interpreter's assertion; otherwise it pops
   *  the return address. */
  lemma ReturnOutcome(s: State, key: Option<nat>, rnd: nat)
    requires WellFormed(s)
    ensures var r := Run(s, 0x00EE, key, rnd);
            && (r.Err? <==> s.sp == 0)
            && (r.Ok? ==> r.value == s.(sp := s.sp - 1, pc := s.stack[s.sp - 1]))
  {
    assert Run(s, 0x00EE, key, rnd) == ReturnFromSubroutine(s.(pc := s.pc + 2));
  }

  // ------------------------------------------------------ register arithmetic

  /** 7xnn adds nn modulo 256 to a byte-sized Vx and leaves VF and every other
   *  register alone: it reports no carry. */
  lemma AddImmediate(s: State, opcode: nat, key: Option<nat>, rnd: nat)
    requires WellFormed(s) && Nibble(opcode) == 0x7
    requires s.v[RegX(opcode)] < 0x100
    ensures var x := RegX(opcode);
            Run(s, opcode, key, rnd)
            == Ok(s.(pc := s.pc + 2, v := s.v[x := (s.v[x] + Low8(opcode)) % 0x100]))
  {
    var x := RegX(opcode);
    var sum := s.v[x] + Low8(opcode);
    assert sum < 0x200;
    assert WrapOnce(sum) == sum % 0x100;
  }

  /** 8xy4 on byte-sized registers: Vx becomes the low byte of the sum and VF the
   *  carry out of it. */
  lemma AddRegisters(s: State, opcode: nat, key: Option<nat>, rnd: nat)
    requires WellFormed(s) && Nibble(opcode) == 0x8 && Low4(opcode) == 0x4
    requires RegX(opcode) < Flag && RegY(opcode) < Flag
    requires s.v[RegX(opcode)] < 0x100 && s.v[RegY(opcode)] < 0x100
    ensures var x, sum := RegX(opcode), s.v[RegX(opcode)] + s.v[RegY(opcode)];
            Run(s, opcode, key, rnd)
            == Ok(s.(pc := s.pc + 2, v := s.v[x := sum % 0x100][Flag := sum / 0x100]))
  {
    var x, y := RegX(opcode), RegY(opcode);
    var s1 := s.(pc := s.pc + 2);
    assert Run(s, opcode, key, rnd) == Arithmetic(s1, opcode);
    var sum := s.v[x] + s.v[y];
    assert WrapOnce(sum) == sum % 0x100;
  }

  /** 8xy5 on byte-sized registers: Vx becomes Vx - Vy modulo 256, a byte, and VF
   *  is 1 exactly when the subtraction borrows (Vy > Vx). */
  lemma Subtract(s: State, opcode: nat, key: Option<nat>, rnd: nat)
    requires WellFormed(s) && Nibble(opcode) == 0x8 && Low4(opcode) == 0x5
    requires RegX(opcode) < Flag && RegY(opcode) < Flag
    requires s.v[RegX(opcode)] < 0x100 && s.v[RegY(opcode)] < 0x100
    ensures var x, vx, vy := RegX(opcode), s.v[RegX(opcode)], s.v[RegY(opcode)];
            var diff := (vx as int - vy) % 0x100;
            && 0 <= diff < 0x100
            && Run(s, opcode, key, rnd)
               == Ok(s.(pc := s.pc + 2, v := s.v[x := diff][Flag := if vy > vx then 1 else 0]))
  {
    var x, vx, vy := RegX(opcode), s.v[RegX(opcode)], s.v[RegY(opcode)];
    assert Run(s, opcode, key, rnd) == Arithmetic(s.(pc := s.pc + 2), opcode);
    var diff := (vx as int - vy) % 0x100;
    assert UnwrapOnce(vx as int - vy) == diff;
    assert s.v[Flag := if vy > vx then 1 else 0][x := diff]
           == s.v[x := diff][Flag := if vy > vx then 1 else 0];
  }

  /** 8xy7 on byte-sized registers: Vx becomes Vy - Vx modulo 256, a byte, and VF
   *  is 1 exactly when the subtraction borrows (Vx > Vy). */
  lemma SubtractReversed(s: State, opcode: nat, key: Option<nat>, rnd: nat)
    requires WellFormed(s) && Nibble(opcode) == 0x8 && Low4(opcode) == 0x7
    requires RegX(opcode) < Flag && RegY(opcode) < Flag
    requires s.v[RegX(opcode)] < 0x100 && s.v[RegY(opcode)] < 0x100
    ensures var x, vx, vy := RegX(opcode), s.v[RegX(opcode)], s.v[RegY(opcode)];
            var diff := (vy as int - vx) % 0x100;
            && 0 <= diff < 0x100
            && Run(s, opcode, key, rnd)
               == Ok(s.(pc := s.pc + 2, v := s.v[x := diff][Flag := if vx > vy then 1 else 0]))
  {
    var x, vx, vy := RegX(opcode), s.v[RegX(opcode)], s.v[RegY(opcode)];
    assert Run(s, opcode, key, rnd) == Arithmetic(s.(pc := s.pc + 2), opcode);
    var diff := (vy as int - vx) % 0x100;
    assert UnwrapOnce(vy as int - vx) == diff;
    assert s.v[Flag := if vx > vy then 1 else 0][x := diff]
           == s.v[x := diff][Flag := if vx > vy then 1 else 0];
  }

  /** 8xy6 halves Vx and puts the bit shifted out in VF; 8xyE doubles Vx without
   *  masking it to 8 bits, puts bit 7 in VF, and fails only when the doubled value
   *  no longer fits a 32-bit cell. */
  lemma Shifts(s: State, opcode: nat, key: Option<nat>, rnd: nat)
    requires WellFormed(s) && Nibble(opcode) == 0x8 && Low4(opcode) in {0x6, 0xE}
    requires RegX(opcode) < Flag && RegY(opcode) < Flag
    ensures var x, vx := RegX(opcode), s.v[RegX(opcode)];
            var r := Run(s, opcode, key, rnd);
            if Low4(opcode) == 0x6 then
              r == Ok(s.(pc := s.pc + 2, v := s.v[x := vx / 2][Flag := vx % 2]))
            else
              && (r.Err? <==> vx * 2 >= CellLimit)
              && (r.Ok? ==> r == Ok(s.(pc := s.pc + 2, v := s.v[x := vx * 2][Flag := (vx / 0x80) % 2])))
              && (r.Ok? && vx >= 0x80 ==> r.value.v[x] >= 0x100)
  {
    var x, vx := RegX(opcode), s.v[RegX(opcode)];
    var s1 := s.(pc := s.pc + 2);
    assert Run(s, opcode, key, rnd) == Arithmetic(s1, opcode);
    assert s.v[Flag := vx % 2][x := vx / 2] == s.v[x := vx / 2][Flag := vx % 2];
    assert s.v[Flag := (vx / 0x80) % 2][x := vx * 2] == s.v[x := vx * 2][Flag := (vx / 0x80) % 2];
  }

  /** 8xy1, 8xy2 and 8xy3 of two bytes give a byte, and do not touch VF. */
  lemma LogicalOpsStayBytes(s: State, opcode: nat, key: Option<nat>, rnd: nat)
    requires WellFormed(s) && Nibble(opcode) == 0x8 && Low4(opcode) in {0x1, 0x2, 0x3}
    requires RegX(opcode) < Flag && RegY(opcode) < Flag
    requires s.v[RegX(opcode)] < 0x100 && s.v[RegY(opcode)] < 0x100
    ensures var r := Run(s, opcode, key, rnd);
            && r.Ok? && r.value.v[RegX(opcode)] < 0x100
            && r.value == s.(pc := s.pc + 2, v := s.v[RegX(opcode) := r.value.v[RegX(opcode)]])
  {
    var x, y := RegX(opcode), RegY(opcode);
    Pow2Byte();
    BitwiseBounded(s.v[x], s.v[y], 8);
    assert Run(s, opcode, key, rnd) == Arithmetic(s.(pc := s.pc + 2), opcode);
  }

  /** Cxnn stores the random number masked by nn: a value no larger than nn. */
  lemma RandomMasked(s: State, opcode: nat, key: Option<nat>, rnd: nat)
    requires WellFormed(s) && Nibble(opcode) == 0xC
    ensures var r := Run(s, opcode, key, rnd);
            && r.Ok? && r.value.v[RegX(opcode)] <= Low8(opcode)
            && r.value == s.(pc := s.pc + 2, v := s.v[RegX(opcode) := r.value.v[RegX(opcode)]])
  {
    BitAndBelow(rnd, Low8(opcode));
  }

  // -------------------------------------------------- BCD and block transfers

  /** Fx33 writes the hundreds, tens and units digits of Vx to memory[I..I+2],
   *  each below 10 and recomposing to Vx when Vx < 1000, and changes no other
   *  cell; it fails exactly when I + 2 lies past the end of memory. */
  lemma Bcd(s: State, opcode: nat, key: Option<nat>, rnd: nat)
    requires WellFormed(s) && Nibble(opcode) == 0xF && Low8(opcode) == 0x33
    ensures var r := Run(s, opcode, key, rnd);
            var i, vx := s.i, s.v[RegX(opcode)];
            && (r.Err? <==> i + 2 >= MemorySize)
            && (r.Ok? ==>
                  && r.value == s.(pc := s.pc + 2, memory := r.value.memory)
                  && |r.value.memory| == MemorySize
                  && r.value.memory[i] < 10 && r.value.memory[i + 1] < 10 && r.value.memory[i + 2] < 10
                  && (vx < 1000 ==>
                        r.value.memory[i] * 100 + r.value.memory[i + 1] * 10 + r.value.memory[i + 2] == vx)
                  && (forall j :: 0 <= j < MemorySize && !(i <= j <= i + 2) ==>
                        r.value.memory[j] == s.memory[j]))
  {
    assert Run(s, opcode, key, rnd) == Misc(s.(pc := s.pc + 2), opcode);
  }

  /** Fx55 followed by Fx65 with the same x and I: V0..Vx are written to
   *  memory[I..I+x], and reading them back changes nothing, so the registers
   *  are as the store found them. (Run reaches these through MiscDispatch.) */
  lemma StoreThenLoadRegisters(s: State, store: nat, load: nat)
    requires WellFormed(s)
    requires Low8(store) == 0x55 && Low8(load) == 0x65 && RegX(load) == RegX(store)
    requires s.i + RegX(store) < MemorySize
    ensures var r := Misc(s, store);
            && r.Ok? && WellFormed(r.value)
            && r.value == s.(memory := r.value.memory)
            && (forall j :: 0 <= j <= RegX(store) ==> r.value.memory[s.i + j] == s.v[j])
            && (forall j :: 0 <= j < MemorySize && !(s.i <= j <= s.i + RegX(store)) ==>
                  r.value.memory[j] == s.memory[j])
            && Misc(r.value, load) == r
  {
    var x := RegX(store);
    var t := StoreRegisters(s, x).value;
    assert forall j :: 0 <= j < |t.memory| ==> Fits(t.memory[j]);
    assert LoadRegisters(t, x).value.v == t.v;
  }

  /** An Fx__ instruction is its Misc operation on the state with pc advanced. */
  lemma MiscDispatch(s: State, opcode: nat, key: Option<nat>, rnd: nat)
    requires WellFormed(s) && Nibble(opcode) == 0xF
    ensures Run(s, opcode, key, rnd) == Misc(s.(pc := s.pc + 2), opcode)
  {
  }

  /** Fx29 with the glyphs in place at 0..79 and a digit in Vx: I points at the
   *  five bytes of that digit's glyph, and nothing else but pc changes. */
  lemma GlyphAddress(s: State, opcode: nat, key: Option<nat>, rnd: nat)
    requires WellFormed(s) && Nibble(opcode) == 0xF && Low8(opcode) == 0x29
    requires s.memory[..|HexChars|] == HexChars
    requires s.v[RegX(opcode)] < 16
    ensures var r := Run(s, opcode, key, rnd);
            var d := s.v[RegX(opcode)];
            && r == Ok(s.(pc := s.pc + 2, i := d * HexSpriteSize))
            && r.value.memory[r.value.i .. r.value.i + HexSpriteSize]
               == HexChars[d * HexSpriteSize .. (d + 1) * HexSpriteSize]
  {
    MiscDispatch(s, opcode, key, rnd);
    var d := s.v[RegX(opcode)];
    assert s.memory[d * HexSpriteSize .. (d + 1) * HexSpriteSize]
           == s.memory[..|HexChars|][d * HexSpriteSize .. (d + 1) * HexSpriteSize];
  }

  /** After a reset the glyphs are in place, so Fx29 points I at the glyph of
   *  the digit in Vx (0 for V0..VE, which reset clears). */
  lemma GlyphAddressAfterReset(s: State, opcode: nat, key: Option<nat>, rnd: nat)
    requires WellFormed(s) && Nibble(opcode) == 0xF && Low8(opcode) == 0x29
    requires RegX(opcode) < Flag || s.v[Flag] < 16
    ensures WellFormed(Reset(s))
    ensures var c := Reset(s);
            var d := c.v[RegX(opcode)];
            var r := Run(c, opcode, key, rnd);
            && d == (if RegX(opcode) < Flag then 0 else s.v[Flag])
            && r == Ok(c.(pc := c.pc + 2, i := d * HexSpriteSize))
            && r.value.memory[r.value.i .. r.value.i + HexSpriteSize]
               == HexChars[d * HexSpriteSize .. (d + 1) * HexSpriteSize]
  {
    ResetState(s);
    GlyphAddress(Reset(s), opcode, key, rnd);
  }

  // ----------------------------------------------------------------- fetch

  /** With byte-sized memory cells the fetched opcode is big-endian:
   *  memory[pc] is its high byte and memory[pc + 1] its low byte. */
  lemma FetchBigEndian(memory: seq<nat>, pc: nat)
    requires pc + 1 < |memory| && memory[pc + 1] < 0x100
    ensures Fetch(memory, pc) == memory[pc] * 0x100 + memory[pc + 1]
    ensures memory[pc] < 0x100 ==> Nibble(Fetch(memory, pc)) == memory[pc] / 0x10
  {
    var hi, lo := memory[pc], memory[pc + 1];
    Pow2Byte();
    OrOfDisjointBits(hi, lo, 8);
    assert Fetch(memory, pc) == hi * 0x100 + lo;
    if hi < 0x100 {
      HighNibble(hi, lo);
    }
  }

  /** The top nibble of a 16-bit word is the top nibble of its high byte. */
  lemma HighNibble(hi: nat, lo: nat)
    requires hi < 0x100 && lo < 0x100
    ensures Nibble(hi * 0x100 + lo) == hi / 0x10
  {
    var q, r := hi / 0x10, hi % 0x10;
    assert hi * 0x100 + lo == q * 0x1000 + (r * 0x100 + lo);
    assert r * 0x100 + lo < 0x1000;
    assert (hi * 0x100 + lo) / 0x1000 == q;
  }

  // ------------------------------------------------------- skips and jumps

  /** The skip instructions come in complementary pairs (3xnn/4xnn, 5xy0/9xy0,
   *  Ex9E/ExA1): on the same operands exactly one of the pair skips the next
   *  instruction, and neither changes anything but pc. */
  lemma SkipsComplementary(s: State, a: nat, b: nat, key: Option<nat>, rnd: nat)
    requires WellFormed(s) && s.pc + 4 <= 0xFFFF
    requires RegX(a) == RegX(b)
    requires || (Nibble(a) == 0x3 && Nibble(b) == 0x4 && Low8(a) == Low8(b))
             || (Nibble(a) == 0x5 && Nibble(b) == 0x9 && Low4(a) == 0 && Low4(b) == 0 && RegY(a) == RegY(b))
             || (Nibble(a) == 0xE && Nibble(b) == 0xE && Low8(a) == 0x9E && Low8(b) == 0xA1)
    ensures var ra, rb := Run(s, a, key, rnd), Run(s, b, key, rnd);
            && ra.Ok? && rb.Ok?
            && ra.value == s.(pc := ra.value.pc) && rb.value == s.(pc := rb.value.pc)
            && {ra.value.pc, rb.value.pc} == {s.pc + 2, s.pc + 4}
  {
    var s1 := s.(pc := s.pc + 2);
    assert Run(s, a, key, rnd) == Skip(s1, a, key);
    assert Run(s, b, key, rnd) == Skip(s1, b, key);
    assert SkipTaken(s1, a, key) != SkipTaken(s1, b, key);
  }

  /** 1nnn lands on nnn and Bnnn on nnn + V0; a target below 0x200, or above
   *  0xFFFF for Bnnn, trips an assertion. Nothing but pc changes. */
  lemma JumpTargets(s: State, opcode: nat, key: Option<nat>, rnd: nat)
    requires WellFormed(s) && (Nibble(opcode) == 0x1 || Nibble(opcode) == 0xB)
    ensures var r := Run(s, opcode, key, rnd);
            var target := if Nibble(opcode) == 0x1 then Low12(opcode) else Low12(opcode) + s.v[0];
            && (r.Ok? <==> 0x200 <= target <= 0xFFFF)
            && (r.Err? ==> r.fault == AssertionFailed)
            && (r.Ok? ==> r.value == s.(pc := target))
  {
    assert Run(s, opcode, key, rnd) == Jump(s.(pc := s.pc + 2), opcode);
  }

  // ------------------------------------------------------- well-formedness

  lemma ArithmeticKeepsWellFormed(s: State, opcode: nat)
    requires WellFormed(s) && RegX(opcode) < Flag && RegY(opcode) < Flag
    ensures Arithmetic(s, opcode).Ok? ==> WellFormed(Arithmetic(s, opcode).value)
  {
  }

  lemma MiscKeepsWellFormed(s: State, opcode: nat)
    requires WellFormed(s)
    ensures Misc(s, opcode).Ok? ==> WellFormed(Misc(s, opcode).value)
  {
    var x := RegX(opcode);
    if Low8(opcode) == 0x55 && Misc(s, opcode).Ok? {
      var m := Misc(s, opcode).value.memory;
      assert forall j :: 0 <= j < |m| ==> Fits(m[j]);
    } else if Low8(opcode) == 0x65 && Misc(s, opcode).Ok? {
      var v := Misc(s, opcode).value.v;
      assert forall j :: 0 <= j < |v| ==> Fits(v[j]);
    }
  }

  lemma SetRegisterKeepsWellFormed(s: State, opcode: nat, rnd: nat)
    requires WellFormed(s)
    ensures SetRegister(s, opcode, rnd).Ok? ==> WellFormed(SetRegister(s, opcode, rnd).value)
  {
    if Nibble(opcode) == 0x8 && RegX(opcode) < Flag && RegY(opcode) < Flag {
      ArithmeticKeepsWellFormed(s, opcode);
    } else if Nibble(opcode) == 0xF {
      MiscKeepsWellFormed(s, opcode);
    }
  }

  lemma DisplayKeepsWellFormed(s: State, opcode: nat)
    requires WellFormed(s)
    ensures Display(s, opcode).Ok? ==> WellFormed(Display(s, opcode).value)
  {
    if Low4(opcode) == 0 {
      assert SpriteTargets(s.memory, s.i, 0, s.v[RegX(opcode)], s.v[RegY(opcode)]) == [];
    } else if s.i + Low4(opcode) <= MemorySize {
      DrawProperties.DrawKeepsWellFormed(s, opcode);
    }
  }

  lemma ControlKeepsWellFormed(s: State, opcode: nat, key: Option<nat>, rnd: nat)
    requires WellFormed(s) && Nibble(opcode) in {0x0, 0x1, 0x2, 0x3, 0x4, 0x5, 0x9, 0xB, 0xE}
    ensures Run(s, opcode, key, rnd).Ok? ==> WellFormed(Run(s, opcode, key, rnd).value)
  {
  }

  lemma RegisterOpsKeepWellFormed(s: State, opcode: nat, key: Option<nat>, rnd: nat)
    requires WellFormed(s) && Nibble(opcode) in {0x6, 0x7, 0x8, 0xA, 0xC, 0xF}
    ensures Run(s, opcode, key, rnd).Ok? ==> WellFormed(Run(s, opcode, key, rnd).value)
  {
    var s1 := s.(pc := s.pc + 2);
    assert Run(s, opcode, key, rnd) == SetRegister(s1, opcode, rnd);
    SetRegisterKeepsWellFormed(s1, opcode, rnd);
  }

  /** Every instruction that succeeds leaves a well-formed machine: the array
   *  sizes, 32-bit cells, one-bit pixels and the stack pointer's range are kept. */
  lemma RunKeepsWellFormed(s: State, opcode: nat, key: Option<nat>, rnd: nat)
    requires WellFormed(s)
    ensures Run(s, opcode, key, rnd).Ok? ==> WellFormed(Run(s, opcode, key, rnd).value)
  {
    var nibble := Nibble(opcode);
    if nibble in {0x6, 0x7, 0x8, 0xA, 0xC, 0xF} {
      RegisterOpsKeepWellFormed(s, opcode, key, rnd);
    } else if nibble == 0xD {
      var s1 := s.(pc := s.pc + 2);
      assert Run(s, opcode, key, rnd) == Display(s1, opcode);
      DisplayKeepsWellFormed(s1, opcode);
    } else {
      ControlKeepsWellFormed(s, opcode, key, rnd);
    }
  }

  // ---------------------------------------------------------------- timers

  /** Chip8.update_timers: when a tick is due both timers count down by one,
   *  stopping at 0, and the tone sounds exactly when the sound timer reaches 0;
   *  otherwise nothing changes and no tone sounds. */
  lemma TimersCountDown(s: State, due: bool)
    ensures var t := UpdateTimers(s, due);
            && t.state == s.(dt := t.state.dt, st := t.state.st)
            && (due ==> t.state.dt == (if s.dt == 0 then 0 else s.dt - 1))
            && (due ==> t.state.st == (if s.st == 0 then 0 else s.st - 1))
            && (!due ==> t.state == s)
            && (t.beep <==> due && s.st == 1)
  {
  }

  // ------------------------------------------------------- key wait, cycles

  /** Fx0A suspends fetching until a key is pressed; the cycle that sees the key
   *  stores it in Vx and resumes fetching at the instruction after Fx0A. */
  lemma WaitForKey(s: State, opcode: nat, key: Option<nat>, rnd: nat, k: nat, due: bool)
    requires WellFormed(s) && Nibble(opcode) == 0xF && Low8(opcode) == 0x0A && k < 16
    ensures var r := Run(s, opcode, key, rnd);
            && r == Ok(s.(pc := s.pc + 2, awaitingKey := Some(RegX(opcode))))
            && WellFormed(r.value)
            && var c := Step(r.value, Some(k), rnd, due);
               && c.Ok? && c.value.frame == None
               && c.value.state.awaitingKey == None
               && c.value.state.v == s.v[RegX(opcode) := k]
               && c.value.state.pc == s.pc + 2
               && c.value.state.memory == s.memory
  {
    assert Run(s, opcode, key, rnd) == Misc(s.(pc := s.pc + 2), opcode);
  }

  /** While a key is awaited and none is pressed, a cycle fetches nothing,
   *  hands over no frame and changes nothing but the timers. */
  lemma IdleWhileWaiting(s: State, rnd: nat, due: bool)
    requires WellFormed(s) && s.awaitingKey.Some?
    ensures var c := Step(s, None, rnd, due);
            && c.Ok? && c.value.frame == None
            && c.value.state == s.(dt := c.value.state.dt, st := c.value.state.st)
  {
  }

  /** A cycle that fetches runs the big-endian opcode at pc; it hands the
   *  framebuffer over exactly when the instruction asked for a refresh, and
   *  afterwards no refresh is pending. */
  lemma CycleRunsFetched(s: State, key: Option<nat>, rnd: nat, due: bool)
    requires WellFormed(s) && s.awaitingKey.None?
    requires key.Some? ==> key.value < 16
    requires s.pc + 1 < MemorySize
    ensures var r := Run(s, Fetch(s.memory, s.pc), key, rnd);
            var c := Step(s, key, rnd, due);
            && (c.Ok? <==> r.Ok?)
            && (c.Err? ==> c.fault == r.fault)
            && (c.Ok? ==>
                  && (c.value.frame.Some? <==> r.value.refreshNeeded)
                  && (c.value.frame.Some? ==> c.value.frame.value == r.value.display)
                  && !c.value.state.refreshNeeded
                  && c.value.state == UpdateTimers(r.value.(refreshNeeded := false), due).state)
  {
  }

  /** Every successful cycle leaves a well-formed machine. */
  lemma StepKeepsWellFormed(s: State, key: Option<nat>, rnd: nat, due: bool)
    requires WellFormed(s)
    requires key.Some? ==> key.value < 16
    ensures Step(s, key, rnd, due).Ok? ==> WellFormed(Step(s, key, rnd, due).value.state)
  {
    if s.awaitingKey.None? && s.pc + 1 < MemorySize {
      RunKeepsWellFormed(s, Fetch(s.memory, s.pc), key, rnd);
    }
  }

  // --------------------------------------------------------- reset and load

  /** Chip8.reset: the glyphs sit at 0..79, the program area and the screen are
   *  clear, execution starts at 0x200 with an empty stack, and resetting twice
   *  is the same as resetting once. */
  lemma ResetState(s: State)
    requires WellFormed(s)
    ensures var c := Reset(s);
            && WellFormed(c)
            && c.memory[..|HexChars|] == HexChars
            && (forall j :: |HexChars| <= j < 0xFFF ==> c.memory[j] == 0)
            && (forall k :: 0 <= k < DisplaySize ==> c.display[k] == 0)
            && c.pc == ProgramStart && c.sp == 0 && c.i == 0 && c.dt == 0 && c.st == 0
            && c.refreshNeeded
            && Reset(c) == c
  {
    var c := Reset(s);
    assert forall j :: 0 <= j < |c.memory| ==> Fits(c.memory[j]);
    assert forall j :: 0 <= j < |c.stack| ==> Fits(c.stack[j]);
    assert forall j :: 0 <= j < |c.v| ==> Fits(c.v[j]);
    assert c.memory[0xFFF] == s.memory[0xFFF];
    assert Reset(c).memory == c.memory;
  }

  /** Chip8.load: a program fits when it ends within memory; its bytes then sit
   *  at 0x200 onwards and every other cell keeps its value. */
  lemma LoadPlacesProgram(s: State, program: seq<nat>)
    requires WellFormed(s)
    requires forall k :: 0 <= k < |program| ==> program[k] < 0x100
    ensures var r := Load(s, program);
            && (r.Ok? <==> ProgramStart + |program| <= MemorySize)
            && (r.Err? ==> r.fault == IndexOutOfRange)
            && (r.Ok? ==>
                  && WellFormed(r.value)
                  && r.value == s.(memory := r.value.memory)
                  && |r.value.memory| == MemorySize
                  && (forall k :: 0 <= k < |program| ==> r.value.memory[ProgramStart + k] == program[k])
                  && (forall j :: 0 <= j < MemorySize && !(ProgramStart <= j < ProgramStart + |program|) ==>
                        r.value.memory[j] == s.memory[j]))
  {
    if ProgramStart + |program| <= MemorySize {
      var m := Load(s, program).value.memory;
      assert forall j :: 0 <= j < |m| ==> Fits(m[j]);
    }
  }
}
