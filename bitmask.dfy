/** GPIO bit masks: a pulse names the pins it raises or lowers as an
    integer with bit `pin` set, the `1 << pin` of the waveform code. The
    masks are unbounded non-negative integers, as Python's are; bitwise OR
    and the bit test are written out on them. */
module Bitmask {

  /** A GPIO number. */
  type Pin = nat

  /** The mask `1 << p`. */
  function Bit(p: Pin): (m: nat)
    ensures m > 0
  {
    if p == 0 then 1 else 2 * Bit(p - 1)
  }

  /** Bitwise OR, `a | b`, on non-negative integers. */
  function Or(a: nat, b: nat): nat
    decreases a + b
  {
    if a == 0 then b
    else if b == 0 then a
    else 2 * Or(a / 2, b / 2) + (if a % 2 == 1 || b % 2 == 1 then 1 else 0)
  }

  /** Whether bit `p` of `m` is set: `(m >> p) & 1 == 1`. */
  predicate HasBit(m: nat, p: Pin) {
    if p == 0 then m % 2 == 1 else HasBit(m / 2, p - 1)
  }

  /** No bit is set in 0. */
  lemma {:induction false} NoBits(p: Pin)
    ensures !HasBit(0, p)
  {
    if p > 0 {
      NoBits(p - 1);
    }
  }

  /** `1 << q` has exactly bit `q` set. */
  lemma {:induction false} BitOnly(q: Pin, p: Pin)
    ensures HasBit(Bit(q), p) <==> p == q
  {
    if q == 0 {
      if p > 0 {
        NoBits(p - 1);
      }
    } else if p > 0 {
      assert Bit(q) / 2 == Bit(q - 1);
      BitOnly(q - 1, p - 1);
    }
  }

  /** OR with 0 changes nothing. */
  lemma OrZero(m: nat)
    ensures Or(m, 0) == m
  {
  }

  /** Shifting right by one distributes over OR. */
  lemma OrHalf(a: nat, b: nat)
    ensures Or(a, b) / 2 == Or(a / 2, b / 2)
    ensures Or(a, b) % 2 == 1 <==> a % 2 == 1 || b % 2 == 1
  {
  }

  /** A bit is set in an OR exactly when it is set in one of the operands. */
  lemma {:induction false} OrBits(a: nat, b: nat, p: Pin)
    ensures HasBit(Or(a, b), p) <==> HasBit(a, p) || HasBit(b, p)
  {
    OrHalf(a, b);
    if p > 0 {
      OrBits(a / 2, b / 2, p - 1);
    }
  }
}
