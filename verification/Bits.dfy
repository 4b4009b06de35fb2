/** Bitwise operators on natural numbers, defined bit by bit, and the laws the table's
    bucket masks and the arithmetic substitutions rest on. */
module Bits {
  import Modular

  function Pow2(k: nat): (p: nat)
    ensures p > 0
  {
    if k == 0 then 1 else 2 * Pow2(k - 1)
  }

  function And(a: nat, b: nat): nat {
    if a == 0 || b == 0 then 0
    else (if a % 2 == 1 && b % 2 == 1 then 1 else 0) + 2 * And(a / 2, b / 2)
  }

  function Xor(a: nat, b: nat): nat
    decreases a + b
  {
    if a == 0 && b == 0 then 0
    else (if a % 2 == b % 2 then 0 else 1) + 2 * Xor(a / 2, b / 2)
  }

  /** `x >> k` of an unsigned number. */
  function Shr(x: nat, k: nat): nat {
    if k == 0 then x else Shr(x / 2, k - 1)
  }

  /** Adding is the carry-less sum plus twice the carries. */
  lemma {:induction false} XorPlusTwiceAnd(a: nat, b: nat)
    ensures Xor(a, b) + 2 * And(a, b) == a + b
    decreases a + b
  {
    if a == 0 && b == 0 {
    } else {
      XorPlusTwiceAnd(a / 2, b / 2);
      assert a == 2 * (a / 2) + a % 2 && b == 2 * (b / 2) + b % 2;
      if a == 0 || b == 0 {
        assert And(a / 2, b / 2) == 0;
      }
    }
  }

  lemma {:induction false} DivModPow2(h: nat, k: nat)
    requires k > 0
    ensures h % Pow2(k) == h % 2 + 2 * ((h / 2) % Pow2(k - 1))
    ensures h / Pow2(k) == (h / 2) / Pow2(k - 1)
  {
    var m, q, r := Pow2(k - 1), (h / 2) / Pow2(k - 1), (h / 2) % Pow2(k - 1);
    assert h == 2 * (h / 2) + h % 2;
    assert h / 2 == q * m + r;
    var s := h % 2 + 2 * r;
    assert h == q * (2 * m) + s by { assert 2 * (q * m) == q * (2 * m); }
    Modular.DivModUnique(h, q, s, 2 * m);
  }

  /** Bit `k` of a conjunction, a disjunction and an exclusive or, from bit `k` of both operands. */
  lemma {:induction false} BitAt(a: nat, b: nat, k: nat)
    ensures var x, y := a / Pow2(k) % 2, b / Pow2(k) % 2;
      && And(a, b) / Pow2(k) % 2 == (if x == 1 && y == 1 then 1 else 0)
      && Or(a, b) / Pow2(k) % 2 == (if x == 1 || y == 1 then 1 else 0)
      && Xor(a, b) / Pow2(k) % 2 == (if x != y then 1 else 0)
    decreases k
  {
    LowBits(a, b);
    if k > 0 {
      BitAt(a / 2, b / 2, k - 1);
      DivModPow2(a, k);
      DivModPow2(b, k);
      DivModPow2(And(a, b), k);
      DivModPow2(Or(a, b), k);
      DivModPow2(Xor(a, b), k);
    }
  }

  lemma LowBits(a: nat, b: nat)
    ensures And(a, b) / 2 == And(a / 2, b / 2) && And(a, b) % 2 == if a % 2 == 1 && b % 2 == 1 then 1 else 0
    ensures Or(a, b) / 2 == Or(a / 2, b / 2) && Or(a, b) % 2 == if a % 2 == 1 || b % 2 == 1 then 1 else 0
    ensures Xor(a, b) / 2 == Xor(a / 2, b / 2) && Xor(a, b) % 2 == if a % 2 != b % 2 then 1 else 0
  {
  }

  /** Shifting right by `k` is division by `2^k`. */
  lemma {:induction false} ShrIsDiv(x: nat, k: nat)
    ensures Shr(x, k) == x / Pow2(k)
  {
    if k > 0 {
      ShrIsDiv(x / 2, k - 1);
      DivModPow2(x, k);
    }
  }

  /** Masking with `2^k - 1` is the remainder modulo `2^k`. */
  lemma {:induction false} AndMask(h: nat, k: nat)
    ensures And(h, Pow2(k) - 1) == h % Pow2(k)
  {
    if k == 0 {
    } else {
      var m := Pow2(k - 1);
      AndMask(h / 2, k - 1);
      DivModPow2(h, k);
      assert Pow2(k) - 1 == 2 * (m - 1) + 1;
      assert (Pow2(k) - 1) / 2 == m - 1;
    }
  }

  lemma {:induction false} XorBound(a: nat, b: nat, w: nat)
    requires a < Pow2(w) && b < Pow2(w)
    ensures Xor(a, b) < Pow2(w)
    ensures And(a, b) < Pow2(w)
  {
    if w > 0 {
      XorBound(a / 2, b / 2, w - 1);
    }
  }

  /** Xor with the all-ones word is subtraction from it: `~b == 2^w - 1 - b`. */
  lemma {:induction false} XorAllOnes(b: nat, w: nat)
    requires b < Pow2(w)
    ensures Xor(b, Pow2(w) - 1) == Pow2(w) - 1 - b
  {
    if w > 0 {
      var m := Pow2(w - 1);
      XorAllOnes(b / 2, w - 1);
      assert Pow2(w) - 1 == 2 * (m - 1) + 1;
      assert (Pow2(w) - 1) / 2 == m - 1 && (Pow2(w) - 1) % 2 == 1;
    }
  }

  function Or(a: nat, b: nat): nat
    decreases a + b
  {
    if a == 0 && b == 0 then 0
    else (if a % 2 == 0 && b % 2 == 0 then 0 else 1) + 2 * Or(a / 2, b / 2)
  }

  /** Numbers whose bits do not meet are added. */
  lemma {:induction false} OrShifted(x: nat, t: nat, k: nat)
    requires x < Pow2(k)
    ensures Or(x, t * Pow2(k)) == x + t * Pow2(k)
    decreases k
  {
    if k == 0 {
      OrZero(t);
    } else {
      var m := t * Pow2(k - 1);
      assert t * Pow2(k) == 2 * m by { Double(t, Pow2(k - 1)); }
      OrShifted(x / 2, t, k - 1);
      OrUnfold(x, m);
    }
  }

  lemma Double(t: nat, p: nat)
    ensures t * (2 * p) == 2 * (t * p)
  {
  }

  lemma OrUnfold(x: nat, m: nat)
    ensures Or(x, 2 * m) == x % 2 + 2 * Or(x / 2, m)
  {
    assert (2 * m) / 2 == m && (2 * m) % 2 == 0;
    if x == 0 && m == 0 {
      assert Or(0, 0) == 0;
    }
  }

  lemma {:induction false} OrZero(b: nat)
    ensures Or(0, b) == b
  {
    if b > 0 {
      OrZero(b / 2);
    }
  }
}
