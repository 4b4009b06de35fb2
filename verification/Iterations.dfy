/** How many iterations of a loop may run on one linked pointer before it has to be linked again. */
module Iterations {
  import Bits
  import Modular
  import opened Addresses

  const NATIVE_ITERATIONS: int := 0x4000_0000

  /** Division as the machine does it: towards zero. */
  function TruncDiv(a: int, b: int): int
    requires b != 0
  {
    if (a >= 0) == (b > 0) then Abs(a) / Abs(b) else -(Abs(a) / Abs(b))
  }

  function Abs(x: int): nat {
    if x < 0 then -x else x
  }

  function I32(x: int): int {
    var u := U32(x);
    if u < W31 then u else u - W32
  }

  /** The iterations that fit behind a linked access at `offset` of a page of `ps` bytes. The last test
      adds in an int and compares unsigned numbers. */
  function Batch(offset: nat, ps: nat, realStep: int, ptrSize: nat): (n: nat)
    requires realStep != 0
    ensures n >= 1
  {
    var leftBytes := if realStep > 0 then ps - offset else -(offset + 1);
    var res := TruncDiv(leftBytes, realStep);
    var res' := if U64(I32(offset + (res - 1) * realStep + ptrSize)) > ps then res - 1 else res;
    if res' <= 0 then 1 else res'
  }

  /** The batch size for a pointer: native ones run without end, the bounce buffer takes one access. */
  function ValidIterations(tagged: bool, inBuffer: bool, ptr: nat, cacheBase: nat, bits: nat, stepVal: int, ptrSize: nat): (n: nat)
    requires tagged && !inBuffer ==> I32(stepVal) != 0
    ensures n >= 1
  {
    if !tagged then NATIVE_ITERATIONS
    else if inBuffer then 1
    else Batch(Bits.And(U64(ptr - cacheBase), Bits.Pow2(bits) - 1), Bits.Pow2(bits), I32(stepVal), ptrSize)
  }

  /** Access `i` of a loop lies in the page. */
  predicate Inside(offset: nat, ps: nat, step: int, ptrSize: nat, i: nat) {
    0 <= offset + i * step && offset + i * step + ptrSize <= ps
  }

  predicate AllInside(offset: nat, ps: nat, step: int, ptrSize: nat, n: nat) {
    forall i :: 0 <= i < n ==> Inside(offset, ps, step, ptrSize, i)
  }

  lemma Times(i: int, j: int, step: int)
    ensures (i + j) * step == i * step + j * step
    ensures (i - 1) * step == i * step - step
    ensures i <= j && step >= 0 ==> i * step <= j * step
    ensures i <= j && step <= 0 ==> i * step >= j * step
  {
    if i <= j && step >= 0 {
      Modular.MulMono(i, j, step);
    }
    if i <= j && step <= 0 {
      Modular.MulMono(i, j, -step);
    }
  }

  lemma DivParts(a: nat, s: nat)
    requires s > 0
    ensures a / s >= 0 && (a / s) * s <= a < (a / s) * s + s
  {
    assert a == (a / s) * s + a % s;
    Modular.QuotientNat(a, s);
  }

  lemma TruncIs(a: int, b: int)
    requires b != 0
    ensures (a >= 0 && b > 0) || (a < 0 && b < 0) ==> TruncDiv(a, b) == Abs(a) / Abs(b)
    ensures forall x: int :: Abs(x) == if x < 0 then -x else x
  {
  }

  /** The quotient that the batch size starts from. */
  lemma Quotient(offset: nat, ps: nat, step: int) returns (k: nat)
    requires step != 0 && offset < ps
    ensures TruncDiv(if step > 0 then ps - offset else -(offset + 1), step) == k
    ensures step > 0 ==> k * step <= ps - offset < k * step + step
    ensures step < 0 ==> -(k * step) <= offset + 1 < -(k * step) - step
  {
    hide *;
    var left := if step > 0 then ps - offset else -(offset + 1);
    TruncIs(left, step);
    DivParts(Abs(left), Abs(step));
    k := Abs(left) / Abs(step);
    Negated(k, step);
  }

  /** The batch size in terms of that quotient, if the first access lies in the page. */
  lemma BatchIs(offset: nat, ps: nat, step: int, ptrSize: nat) returns (k: nat)
    requires step != 0 && 0 < ptrSize && offset + ptrSize <= ps <= NATIVE_ITERATIONS
    ensures step > 0 ==> k * step <= ps - offset < k * step + step
    ensures step < 0 ==> -(k * step) <= offset + 1 < -(k * step) - step
    ensures Batch(offset, ps, step, ptrSize) ==
      if k == 0 then 1 else if offset + (k * step - step) + ptrSize > ps then k - 1 else k
  {
    hide U64, I32;
    k := Quotient(offset, ps, step);
    Times(k, 0, step);
    if k > 0 {
      Times(1, k, step);
      var last := offset + (k - 1) * step + ptrSize;
      assert 0 <= last < W31;
      SmallStep(last);
    }
  }

  lemma InsideIs(offset: nat, ps: nat, step: int, ptrSize: nat, i: nat, x: int)
    requires x == i * step && 0 <= offset + x && offset + x + ptrSize <= ps
    ensures Inside(offset, ps, step, ptrSize, i)
  {
  }

  /** All iterations of a batch stay inside the page. */
  lemma BatchIsSafe(offset: nat, ps: nat, step: int, ptrSize: nat)
    requires step != 0 && 0 < ptrSize && offset + ptrSize <= ps <= NATIVE_ITERATIONS
    requires step > 0 ==> ptrSize <= 2 * step || ps < 3 * step
    ensures AllInside(offset, ps, step, ptrSize, Batch(offset, ps, step, ptrSize))
  {
    var k := BatchIs(offset, ps, step, ptrSize);
    var n := Batch(offset, ps, step, ptrSize);
    hide Batch, Inside;
    if step > 0 && k >= 3 {
      Times(3, k, step);
    }
    forall i: nat | i < n ensures Inside(offset, ps, step, ptrSize, i) {
      var x := i * step;
      if i > 0 {
        Times(i, k - 1, step);
        Times(k, 0, step);
        Times(1, i, step);
        if n == k - 1 {
          Times(i, k - 2, step);
          Times(k - 1, 0, step);
        }
      }
      InsideIs(offset, ps, step, ptrSize, i, x);
    }
  }

  /** An offset at which a batch leaves the page. */
  lemma UnsafeOffset(ps: nat, step: int, ptrSize: nat) returns (offset: nat)
    requires 0 < step && 2 * step < ptrSize <= ps <= NATIVE_ITERATIONS && 3 * step <= ps
    ensures offset + ptrSize <= ps && !AllInside(offset, ps, step, ptrSize, Batch(offset, ps, step, ptrSize))
  {
    offset := if ptrSize <= 3 * step then ps - 3 * step else ps - ptrSize;
    var k := BatchIs(offset, ps, step, ptrSize);
    var n := Batch(offset, ps, step, ptrSize);
    hide Batch;
    if k <= 2 {
      Times(k + 1, 3, step);
    }
    assert k >= 3 && n == k - 1;
    Times(3, k, step);
    Times(k - 1, 0, step);
    Times(k, 0, step);
    Times(1, k - 2, step);
    assert (n - 1) * step == k * step - 2 * step;
    assert !Inside(offset, ps, step, ptrSize, n - 1);
  }

  /** Batches are safe at every offset where the first access fits exactly if the access is at most two
      steps long, steps go down, or a page is shorter than three steps. */
  lemma BatchSafeExactly(ps: nat, step: int, ptrSize: nat)
    requires step != 0 && 0 < ptrSize <= ps <= NATIVE_ITERATIONS
    ensures (forall offset: nat :: offset + ptrSize <= ps ==>
      AllInside(offset, ps, step, ptrSize, Batch(offset, ps, step, ptrSize))) <==>
      (step < 0 || ptrSize <= 2 * step || ps < 3 * step)
  {
    hide *;
    if step < 0 || ptrSize <= 2 * step || ps < 3 * step {
      forall offset: nat | offset + ptrSize <= ps
        ensures AllInside(offset, ps, step, ptrSize, Batch(offset, ps, step, ptrSize))
      {
        BatchIsSafe(offset, ps, step, ptrSize);
      }
    } else {
      var offset := UnsafeOffset(ps, step, ptrSize);
    }
  }

  /** A batch is at most one iteration short. */
  lemma BatchAlmostMaximal(offset: nat, ps: nat, step: int, ptrSize: nat, n: nat)
    requires step != 0 && 0 < ptrSize && offset + ptrSize <= ps <= NATIVE_ITERATIONS
    requires AllInside(offset, ps, step, ptrSize, n)
    ensures n <= Batch(offset, ps, step, ptrSize) + 1
  {
    var k := BatchIs(offset, ps, step, ptrSize);
    hide Batch, AllInside;
    if n > 1 {
      LastInside(offset, ps, step, ptrSize, n);
      Times(k, 1, step);
      if step > 0 {
        Modular.MulCancel(n - 1, k + 1, step);
        if offset + (k * step - step) + ptrSize > ps {
          Times(k, 0, step);
          Modular.MulCancel(n - 1, k - 1, step);
        }
      } else {
        Negated(n - 1, step);
        Negated(k + 1, step);
        Modular.MulCancel(n - 1, k + 1, -step);
        Times(1, k, step);
      }
    }
  }

  lemma LastInside(offset: nat, ps: nat, step: int, ptrSize: nat, n: nat)
    requires n > 0 && AllInside(offset, ps, step, ptrSize, n)
    ensures 0 <= offset + (n - 1) * step && offset + (n - 1) * step + ptrSize <= ps
  {
    assert Inside(offset, ps, step, ptrSize, n - 1);
  }

  lemma Negated(i: int, step: int)
    ensures i * -step == -(i * step)
  {
  }

  // ---------- Native pointers and the bounce buffer ----------

  /** A native pointer never has to be linked again: the answer is 2^30. */
  lemma NativeIterations(inBuffer: bool, ptr: nat, cacheBase: nat, bits: nat, stepVal: int, ptrSize: nat)
    ensures ValidIterations(false, inBuffer, ptr, cacheBase, bits, stepVal, ptrSize) == 0x4000_0000
  {
  }

  /** The bounce buffer holds one access: as many iterations are allowed as stay inside its copy. */
  lemma BufferIterations(ptr: nat, cacheBase: nat, bits: nat, stepVal: int, ptrSize: nat, n: nat)
    requires stepVal != 0 && ptrSize > 0
    ensures AllInside(0, ptrSize, stepVal, ptrSize, n) <==> n <= ValidIterations(true, true, ptr, cacheBase, bits, stepVal, ptrSize)
  {
    if n > 1 {
      assert !Inside(0, ptrSize, stepVal, ptrSize, 1);
    }
  }

  // ---------- Steps that do not fit an int ----------

  predicate Fits(stepVal: int) {
    -W31 <= stepVal < W31
  }

  /** A step longer than the page leaves it at once. */
  lemma WideStep(offset: nat, ps: nat, step: int, ptrSize: nat, n: nat)
    requires 0 < ptrSize && offset + ptrSize <= ps && (step > ps || -step > ps)
    ensures AllInside(offset, ps, step, ptrSize, n) <==> n <= 1
  {
    if n > 1 {
      assert !Inside(offset, ps, step, ptrSize, 1);
    }
  }

  /** At every offset, a batch is one iteration. */
  predicate OneOnly(ps: nat, step: int, ptrSize: nat) {
    if step > 0 then ps < 2 * step || (ps < 3 * step && ps < step + ptrSize) else ps < ptrSize - 2 * step - 1
  }

  lemma BatchIsOne(offset: nat, ps: nat, step: int, ptrSize: nat)
    requires step != 0 && 0 < ptrSize && offset + ptrSize <= ps <= NATIVE_ITERATIONS && OneOnly(ps, step, ptrSize)
    ensures Batch(offset, ps, step, ptrSize) == 1
  {
    var k := BatchIs(offset, ps, step, ptrSize);
    hide Batch;
    if k >= 2 {
      if step > 0 {
        Times(2, k, step);
        if k >= 3 {
          Times(3, k, step);
        }
      } else {
        Times(2, k, step);
      }
    }
  }

  lemma BatchIsMore(ps: nat, step: int, ptrSize: nat) returns (offset: nat)
    requires step != 0 && 0 < ptrSize <= ps <= NATIVE_ITERATIONS && !OneOnly(ps, step, ptrSize)
    ensures offset + ptrSize <= ps && Batch(offset, ps, step, ptrSize) > 1
  {
    offset := if step > 0 then 0 else ps - ptrSize;
    var k := BatchIs(offset, ps, step, ptrSize);
    hide Batch;
    if k <= 1 {
      Times(k + 1, 2, step);
    }
    if k == 2 && step > 0 {
      Times(3, 3, step);
    }
    if step < 0 {
      Times(1, k - 1, step);
    }
  }

  /** Exactly the steps for which batches are safe, among all 64-bit ones: the batch is computed with the
      low 32 bits of the step, the loop goes on by all of it. */
  predicate StepSafe(ps: nat, stepVal: int, ptrSize: nat) {
    if Fits(stepVal) then stepVal < 0 || ptrSize <= 2 * stepVal || ps < 3 * stepVal
    else OneOnly(ps, I32(stepVal), ptrSize)
  }

  lemma StepSafeIs(ps: nat, stepVal: int, ptrSize: nat)
    ensures StepSafe(ps, stepVal, ptrSize) <==>
      if Fits(stepVal) then stepVal < 0 || ptrSize <= 2 * stepVal || ps < 3 * stepVal else OneOnly(ps, I32(stepVal), ptrSize)
    ensures Fits(stepVal) <==> -W31 <= stepVal < W31
    ensures !Fits(stepVal) && ps <= NATIVE_ITERATIONS ==> stepVal > ps || -stepVal > ps
    ensures 0 < NATIVE_ITERATIONS < W64
  {
    hide OneOnly, I32;
  }

  lemma LinkedBatch(ptr: nat, cacheBase: nat, bits: nat, stepVal: int, ptrSize: nat)
    requires bits <= 30 && cacheBase <= ptr < W64 && I32(stepVal) != 0
    ensures OffsetOf(ptr - cacheBase, bits) < Bits.Pow2(bits) <= NATIVE_ITERATIONS
    ensures ValidIterations(true, false, ptr, cacheBase, bits, stepVal, ptrSize) ==
      Batch(OffsetOf(ptr - cacheBase, bits), Bits.Pow2(bits), I32(stepVal), ptrSize)
  {
    hide Batch, Bits.Pow2, Bits.And, OffsetOf, I32;
    ShiftAndMask(ptr - cacheBase, bits);
    Pow2Order(bits, 30);
    PowerOf30();
    Parts(ptr - cacheBase, bits);
  }

  /** The iterations for a linked pointer stay in its page. */
  lemma IterationsAreSafe(ptr: nat, cacheBase: nat, bits: nat, stepVal: int, ptrSize: nat)
    requires bits <= 30 && cacheBase <= ptr < W64 && I32(stepVal) != 0
    requires 0 < ptrSize && OffsetOf(ptr - cacheBase, bits) + ptrSize <= Bits.Pow2(bits)
    requires StepSafe(Bits.Pow2(bits), stepVal, ptrSize)
    ensures AllInside(OffsetOf(ptr - cacheBase, bits), Bits.Pow2(bits), stepVal, ptrSize,
                      ValidIterations(true, false, ptr, cacheBase, bits, stepVal, ptrSize))
  {
    hide *;
    var o, ps := OffsetOf(ptr - cacheBase, bits), Bits.Pow2(bits);
    LinkedBatch(ptr, cacheBase, bits, stepVal, ptrSize);
    StepSafeIs(ps, stepVal, ptrSize);
    if Fits(stepVal) {
      SmallStep(stepVal);
      BatchIsSafe(o, ps, stepVal, ptrSize);
    } else {
      BatchIsOne(o, ps, I32(stepVal), ptrSize);
      WideStep(o, ps, stepVal, ptrSize, 1);
    }
  }

  /** With a step that does not fit an int, iterations are safe exactly if they are one. */
  lemma WideStepSafe(ptr: nat, cacheBase: nat, bits: nat, stepVal: int, ptrSize: nat)
    requires bits <= 30 && cacheBase <= ptr < W64 && I32(stepVal) != 0 && !Fits(stepVal)
    requires 0 < ptrSize && OffsetOf(ptr - cacheBase, bits) + ptrSize <= Bits.Pow2(bits)
    ensures var n := ValidIterations(true, false, ptr, cacheBase, bits, stepVal, ptrSize);
      AllInside(OffsetOf(ptr - cacheBase, bits), Bits.Pow2(bits), stepVal, ptrSize, n) <==> n == 1
  {
    LinkedBatch(ptr, cacheBase, bits, stepVal, ptrSize);
    hide Batch, AllInside, Bits.Pow2, OffsetOf, I32, ValidIterations;
    WideStep(OffsetOf(ptr - cacheBase, bits), Bits.Pow2(bits), stepVal, ptrSize,
             ValidIterations(true, false, ptr, cacheBase, bits, stepVal, ptrSize));
  }

  /** At every linked pointer the iterations are safe, if and only if the step is. */
  lemma IterationsSafeExactly(bits: nat, stepVal: int, ptrSize: nat)
    requires bits <= 30 && I32(stepVal) != 0 && 0 < ptrSize <= Bits.Pow2(bits)
    ensures (forall ptr: nat, cacheBase: nat ::
      cacheBase <= ptr < W64 && OffsetOf(ptr - cacheBase, bits) + ptrSize <= Bits.Pow2(bits) ==>
        AllInside(OffsetOf(ptr - cacheBase, bits), Bits.Pow2(bits), stepVal, ptrSize,
                  ValidIterations(true, false, ptr, cacheBase, bits, stepVal, ptrSize))) <==>
      StepSafe(Bits.Pow2(bits), stepVal, ptrSize)
  {
    hide *;
    if StepSafe(Bits.Pow2(bits), stepVal, ptrSize) {
      forall ptr: nat, cacheBase: nat | cacheBase <= ptr < W64 && OffsetOf(ptr - cacheBase, bits) + ptrSize <= Bits.Pow2(bits)
        ensures AllInside(OffsetOf(ptr - cacheBase, bits), Bits.Pow2(bits), stepVal, ptrSize,
                          ValidIterations(true, false, ptr, cacheBase, bits, stepVal, ptrSize))
      {
        IterationsAreSafe(ptr, cacheBase, bits, stepVal, ptrSize);
      }
    } else {
      var ptr := UnsafePointer(bits, stepVal, ptrSize);
    }
  }

  /** A pointer whose iterations leave the page. */
  lemma UnsafePointer(bits: nat, stepVal: int, ptrSize: nat) returns (ptr: nat)
    requires bits <= 30 && I32(stepVal) != 0 && 0 < ptrSize <= Bits.Pow2(bits)
    requires !StepSafe(Bits.Pow2(bits), stepVal, ptrSize)
    ensures 0 <= ptr < W64 && OffsetOf(ptr - 0, bits) + ptrSize <= Bits.Pow2(bits)
    ensures !AllInside(OffsetOf(ptr - 0, bits), Bits.Pow2(bits), stepVal, ptrSize,
                       ValidIterations(true, false, ptr, 0, bits, stepVal, ptrSize))
  {
    hide *;
    var ps := Bits.Pow2(bits);
    StepSafeIs(ps, stepVal, ptrSize);
    LinkedBatch(0, 0, bits, stepVal, ptrSize);
    if Fits(stepVal) {
      SmallStep(stepVal);
      ptr := UnsafeOffset(ps, stepVal, ptrSize);
    } else {
      ptr := BatchIsMore(ps, I32(stepVal), ptrSize);
      WideStep(ptr, ps, stepVal, ptrSize, Batch(ptr, ps, I32(stepVal), ptrSize));
    }
    PartsUnique(0, ptr, bits);
    StartOne(bits);
    LinkedBatch(ptr, 0, bits, stepVal, ptrSize);
  }

  /** For example, a step of 2^32 + 1: all 4096 iterations are allowed and the second is far outside. */
  lemma WideStepFails()
    ensures ValidIterations(true, false, 0, 0, 12, 0x1_0000_0001, 1) == 4096
    ensures !AllInside(0, 4096, 0x1_0000_0001, 1, 4096) && !StepSafe(4096, 0x1_0000_0001, 1)
  {
    assert Bits.Pow2(12) == 4096;
    WideStep(0, 4096, 0x1_0000_0001, 1, 4096);
  }

  lemma SmallStep(x: int)
    requires -W31 <= x < W31
    ensures I32(x) == x
  {
    if x < 0 {
      Wrap32(x);
    }
  }

  lemma PowerOf30()
    ensures Bits.Pow2(30) == NATIVE_ITERATIONS
  {
    PowersOf16();
    Pow2Sum(30, 2);
    assert Bits.Pow2(2) == 4;
  }
}
