/** Bitwise operators on Python's unbounded non-negative integers.
 *
 *  The emulator keeps registers and memory cells as plain integers, so `|`, `&`
 *  and `^` act on naturals of any width. They are defined here bit by bit, from
 *  the least significant bit up, so that their behaviour is ordinary integer
 *  arithmetic the verifier can reason about.
 */
module Bits {

  /** 2 to the power k. */
  function Pow2(k: nat): (p: nat)
    ensures p >= 1
  {
    if k == 0 then 1 else 2 * Pow2(k - 1)
  }

  /** Python's `a & b` on non-negative integers. */
  function BitAnd(a: nat, b: nat): nat
    decreases a
  {
    if a == 0 || b == 0 then 0
    else 2 * BitAnd(a / 2, b / 2) + (if a % 2 == 1 && b % 2 == 1 then 1 else 0)
  }

  /** Python's `a | b` on non-negative integers. */
  function BitOr(a: nat, b: nat): nat
    decreases a + b
  {
    if a == 0 then b
    else if b == 0 then a
    else 2 * BitOr(a / 2, b / 2) + (if a % 2 == 1 || b % 2 == 1 then 1 else 0)
  }

  /** Python's `a ^ b` on non-negative integers. */
  function BitXor(a: nat, b: nat): nat
    decreases a + b
  {
    if a == 0 then b
    else if b == 0 then a
    else 2 * BitXor(a / 2, b / 2) + (if a % 2 != b % 2 then 1 else 0)
  }

  /** Shifting a k-bit shifted value left once more: `(a << k) << 1 == a << (k + 1)`. */
  lemma ShiftOnceMore(a: nat, k: nat)
    ensures a * Pow2(k) * 2 == a * Pow2(k + 1)
  {
    assert Pow2(k + 1) == 2 * Pow2(k);
  }

  lemma {:induction false} Pow2Add(a: nat, b: nat)
    ensures Pow2(a + b) == Pow2(a) * Pow2(b)
  {
    if a > 0 {
      Pow2Add(a - 1, b);
      assert Pow2(a + b) == 2 * Pow2(a - 1 + b);
    }
  }

  lemma Pow2Byte()
    ensures Pow2(8) == 0x100
  {
    assert Pow2(1) == 2;
    assert Pow2(2) == 4;
    assert Pow2(3) == 8;
    assert Pow2(4) == 16;
    assert Pow2(5) == 32;
    assert Pow2(6) == 64;
    assert Pow2(7) == 128;
  }

  lemma Pow2Word()
    ensures Pow2(32) == 0x1_0000_0000
  {
    Pow2Byte();
    Pow2Add(8, 8);
    Pow2Add(16, 16);
  }

  /** The three operators never produce a bit above the highest bit of their
   *  operands: on k-bit operands they give a k-bit result. */
  lemma {:induction false} BitwiseBounded(a: nat, b: nat, k: nat)
    requires a < Pow2(k) && b < Pow2(k)
    ensures BitAnd(a, b) < Pow2(k)
    ensures BitOr(a, b) < Pow2(k)
    ensures BitXor(a, b) < Pow2(k)
  {
    if k == 0 {
      assert a == 0 && b == 0;
    } else if a != 0 && b != 0 {
      BitwiseBounded(a / 2, b / 2, k - 1);
    } else if a == 0 {
      assert BitAnd(a, b) == 0;
    }
  }

  /** The AND of two values is never larger than either of them. */
  lemma {:induction false} BitAndBelow(a: nat, b: nat)
    ensures BitAnd(a, b) <= a && BitAnd(a, b) <= b
  {
    if a != 0 && b != 0 {
      BitAndBelow(a / 2, b / 2);
    }
  }

  /** OR-ing a value shifted left by k bits with a k-bit value concatenates the two:
   *  `(hi << k) | lo == hi * 2^k + lo`. */
  lemma {:induction false} OrOfDisjointBits(hi: nat, lo: nat, k: nat)
    requires lo < Pow2(k)
    ensures BitOr(hi * Pow2(k), lo) == hi * Pow2(k) + lo
  {
    if k == 0 {
      assert lo == 0;
    } else {
      var a := hi * Pow2(k);
      assert a == 2 * (hi * Pow2(k - 1));
      if a != 0 && lo != 0 {
        OrOfDisjointBits(hi, lo / 2, k - 1);
        assert a / 2 == hi * Pow2(k - 1);
        assert a % 2 == 0;
      }
    }
  }
}
