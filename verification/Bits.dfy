/** Bitwise operators on unsigned integers of any width, written out bit by bit,
    with the facts the header patching and the fragment key rely on. */
module Bits {

  function Pow2(k: nat): nat {
    if k == 0 then 1 else 2 * Pow2(k - 1)
  }

  function ShiftLeft(a: nat, k: nat): nat {
    if k == 0 then a else 2 * ShiftLeft(a, k - 1)
  }

  function BitAnd(a: nat, b: nat): nat {
    if a == 0 || b == 0 then 0
    else 2 * BitAnd(a / 2, b / 2) + (if a % 2 == 1 && b % 2 == 1 then 1 else 0)
  }

  function BitOr(a: nat, b: nat): nat
    decreases a + b
  {
    if a == 0 && b == 0 then 0
    else 2 * BitOr(a / 2, b / 2) + (if a % 2 == 1 || b % 2 == 1 then 1 else 0)
  }

  lemma ShiftStep(a: nat, k: nat)
    requires k > 0
    ensures ShiftLeft(a, k) == 2 * ShiftLeft(a, k - 1) && Pow2(k) == 2 * Pow2(k - 1)
  {
  }

  lemma Shift4(a: nat, k: nat)
    requires k >= 4
    ensures ShiftLeft(a, k) == 16 * ShiftLeft(a, k - 4) && Pow2(k) == 16 * Pow2(k - 4)
  {
    hide ShiftLeft, Pow2;
    ShiftStep(a, k);
    ShiftStep(a, k - 1);
    ShiftStep(a, k - 2);
    ShiftStep(a, k - 3);
  }

  lemma ShiftNone(a: nat)
    ensures ShiftLeft(a, 0) == a && Pow2(0) == 1
  {
  }

  lemma Shift16(a: nat)
    ensures ShiftLeft(a, 16) == a * 0x1_0000
    ensures Pow2(16) == 0x1_0000
  {
    hide ShiftLeft, Pow2;
    Shift4(a, 16);
    Shift4(a, 12);
    Shift4(a, 8);
    Shift4(a, 4);
    ShiftNone(a);
  }

  lemma {:induction false} OrZero(a: nat)
    ensures BitOr(a, 0) == a && BitOr(0, a) == a
  {
    if a > 0 { OrZero(a / 2); }
  }

  /** Or-ing a value into cleared low bits is addition. */
  lemma {:induction false} OrIntoClearedBits(hi: nat, lo: nat, k: nat)
    requires lo < Pow2(k)
    ensures BitOr(ShiftLeft(hi, k), lo) == ShiftLeft(hi, k) + lo
    ensures BitOr(lo, ShiftLeft(hi, k)) == ShiftLeft(hi, k) + lo
    decreases k
  {
    if k == 0 {
      OrZero(hi);
    } else {
      OrIntoClearedBits(hi, lo / 2, k - 1);
    }
  }

  /** A mask of k ones keeps the low k bits. */
  lemma {:induction false} AndLowMask(a: nat, k: nat)
    requires a < Pow2(k)
    ensures BitAnd(a, Pow2(k) - 1) == a
    decreases k
  {
    if k > 0 && a > 0 {
      AndLowMask(a / 2, k - 1);
      assert (Pow2(k) - 1) / 2 == Pow2(k - 1) - 1;
    }
  }

  /** A mask whose low k bits are zero clears the low k bits of the other operand. */
  lemma {:induction false} AndHighMask(hi: nat, lo: nat, mask: nat, k: nat)
    requires lo < Pow2(k)
    ensures BitAnd(ShiftLeft(hi, k) + lo, ShiftLeft(mask, k)) == ShiftLeft(BitAnd(hi, mask), k)
    decreases k
  {
    if k > 0 {
      AndHighMask(hi, lo / 2, mask, k - 1);
      assert (ShiftLeft(hi, k) + lo) / 2 == ShiftLeft(hi, k - 1) + lo / 2;
    } else {
      assert lo == 0;
    }
  }

  /** Or-ing into a value with cleared low bits ors the high parts and keeps the low bits of the other. */
  lemma {:induction false} OrAboveClearedBits(a: nat, b: nat, lo: nat, k: nat)
    requires lo < Pow2(k)
    ensures BitOr(ShiftLeft(a, k), ShiftLeft(b, k) + lo) == ShiftLeft(BitOr(a, b), k) + lo
    decreases k
  {
    if k > 0 {
      OrAboveClearedBits(a, b, lo / 2, k - 1);
      assert (ShiftLeft(b, k) + lo) / 2 == ShiftLeft(b, k - 1) + lo / 2;
      assert (ShiftLeft(b, k) + lo) % 2 == lo % 2;
    }
  }

  lemma MaskHigh16(x: nat)
    requires x < 0x1_0000_0000
    ensures BitAnd(x, 0xffff_0000) == ShiftLeft(x / 0x1_0000, 16)
  {
    hide BitAnd;
    var hi := x / 0x1_0000;
    Shift16(hi);
    Shift16(0xffff);
    AndHighMask(hi, x % 0x1_0000, 0xffff, 16);
    AndLowMask(hi, 16);
  }

  /** What `(x & 0xffff0000) | len` computes on 32-bit words. */
  lemma ReplaceLow16(x: nat, len: nat)
    requires x < 0x1_0000_0000 && len < 0x1_0000_0000
    ensures BitOr(BitAnd(x, 0xffff_0000), len)
      == BitOr(x / 0x1_0000, len / 0x1_0000) * 0x1_0000 + len % 0x1_0000
    ensures len < 0x1_0000 ==> BitOr(BitAnd(x, 0xffff_0000), len) == x / 0x1_0000 * 0x1_0000 + len
  {
    hide BitAnd, BitOr;
    var h := len / 0x1_0000;
    MaskHigh16(x);
    Shift16(h);
    OrAboveClearedBits(x / 0x1_0000, h, len % 0x1_0000, 16);
    Shift16(BitOr(x / 0x1_0000, h));
    OrZero(x / 0x1_0000);
  }
}
