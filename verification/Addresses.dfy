/** Machine arithmetic on addresses: page indices and offsets, and the address that is reported for
    a page leaving the translation buffer. */
module Addresses {
  import Bits
  import Modular

  const W31 := 0x8000_0000
  const W32 := 0x1_0000_0000
  const W64 := 0x1_0000_0000_0000_0000

  function U32(x: int): (r: nat)
    ensures r < W32 && (0 <= x < W32 ==> r == x)
  {
    x % W32
  }

  function U64(x: int): (r: nat)
    ensures r < W64 && (0 <= x < W64 ==> r == x)
  {
    x % W64
  }

  // ---------- Pages of 2^bits bytes ----------

  /** Where page `p` starts. */
  function Start(p: int, bits: nat): int {
    p * Bits.Pow2(bits)
  }

  function PageOf(a: nat, bits: nat): nat {
    Modular.QuotientNat(a, Bits.Pow2(bits));
    a / Bits.Pow2(bits)
  }

  function OffsetOf(a: nat, bits: nat): nat {
    a % Bits.Pow2(bits)
  }

  lemma Parts(a: nat, bits: nat)
    ensures a == Start(PageOf(a, bits), bits) + OffsetOf(a, bits) && OffsetOf(a, bits) < Bits.Pow2(bits)
  {
    hide Bits.Pow2;
  }

  lemma PartsUnique(p: nat, o: nat, bits: nat)
    requires o < Bits.Pow2(bits)
    ensures Start(p, bits) >= 0 && PageOf(Start(p, bits) + o, bits) == p && OffsetOf(Start(p, bits) + o, bits) == o
  {
    hide Bits.Pow2;
    Modular.MulMono(0, p, Bits.Pow2(bits));
    Modular.DivModUnique(Start(p, bits) + o, p, o, Bits.Pow2(bits));
  }

  lemma StartSum(p: int, q: int, bits: nat)
    ensures Start(p + q, bits) == Start(p, bits) + Start(q, bits)
    ensures Start(p - q, bits) == Start(p, bits) - Start(q, bits)
  {
    hide Bits.Pow2;
  }

  lemma StartOne(bits: nat)
    ensures Start(0, bits) == 0 && Start(1, bits) == Bits.Pow2(bits)
  {
    hide Bits.Pow2;
  }

  lemma StartMono(p: int, q: int, bits: nat)
    requires p < q
    ensures Start(p, bits) + Bits.Pow2(bits) <= Start(q, bits)
  {
    hide Bits.Pow2;
    Modular.MulMono(p + 1, q, Bits.Pow2(bits));
    StartSum(p, 1, bits);
    StartOne(bits);
  }

  lemma StartIs(p: int, bits: nat)
    ensures Start(p, bits) == p * Bits.Pow2(bits)
  {
  }

  lemma PageInRange(a: nat, n: nat, bits: nat)
    requires a < Start(n, bits)
    ensures PageOf(a, bits) < n
  {
    hide *;
    Parts(a, bits);
    var p := PageOf(a, bits);
    if p > n {
      StartMono(n, p, bits);
    }
  }

  // ---------- Powers of two ----------

  lemma {:induction false} Pow2Sum(a: nat, b: nat)
    ensures Bits.Pow2(a + b) == Bits.Pow2(a) * Bits.Pow2(b)
    decreases a
  {
    hide *;
    if a > 0 {
      Pow2Sum(a - 1, b);
      Pow2Next(a - 1);
      Pow2Next(a - 1 + b);
      Regroup(2, Bits.Pow2(a - 1), Bits.Pow2(b));
    } else {
      Pow2Zero();
    }
  }

  lemma Pow2Next(k: nat)
    ensures Bits.Pow2(k + 1) == 2 * Bits.Pow2(k)
  {
  }

  lemma Pow2Zero()
    ensures Bits.Pow2(0) == 1
  {
  }

  lemma PowersOf16()
    ensures Bits.Pow2(4) == 16 && Bits.Pow2(8) == 256 && Bits.Pow2(16) == 65536
    ensures Bits.Pow2(32) == W32 && Bits.Pow2(64) == W64
  {
    assert Bits.Pow2(2) == 4;
    assert Bits.Pow2(4) == 16;
    hide Bits.Pow2;
    Pow2Sum(4, 4);
    Pow2Sum(8, 8);
    Pow2Sum(16, 16);
    Pow2Sum(32, 32);
  }

  lemma {:induction false} Pow2Order(a: nat, b: nat)
    requires a <= b
    ensures Bits.Pow2(a) <= Bits.Pow2(b)
    decreases b
  {
    if a < b {
      Pow2Order(a, b - 1);
    }
  }

  // ---------- Index and offset, as the machine computes them ----------

  function PageIndex(mpage: nat, bits: nat): nat {
    U32(Bits.Shr(mpage, bits))
  }

  function PageOffset(mpage: nat, bits: nat): nat {
    U32(Bits.And(mpage, Bits.Pow2(bits) - 1))
  }

  lemma ShiftAndMask(mpage: nat, bits: nat)
    ensures Bits.Shr(mpage, bits) == PageOf(mpage, bits) && Bits.And(mpage, Bits.Pow2(bits) - 1) == OffsetOf(mpage, bits)
  {
    hide Bits.Pow2, Bits.Shr, Bits.And;
    Bits.ShrIsDiv(mpage, bits);
    Bits.AndMask(mpage, bits);
  }

  /** Shift and mask give page and offset; nothing is lost in 32 bits. */
  lemma PageParts(mpage: nat, bits: nat, n: nat)
    requires bits <= 30 && n <= W31 && mpage < Start(n, bits)
    ensures PageIndex(mpage, bits) == PageOf(mpage, bits) < n
    ensures PageOffset(mpage, bits) == OffsetOf(mpage, bits) < Bits.Pow2(bits)
  {
    hide Start, PageOf, OffsetOf, U32, Bits.Pow2, Bits.Shr, Bits.And;
    ShiftAndMask(mpage, bits);
    Parts(mpage, bits);
    PageInRange(mpage, n, bits);
    Pow2Order(bits, 32);
    PowersOf16();
  }

  // ---------- The address of a dropped page ----------

  /** The index difference is taken in 32 bits, the rest in 64. */
  function DropAddress(ptr: nat, bsPageIndex: nat, removed: nat, bits: nat): nat {
    U64(ptr - Start(U32(bsPageIndex - removed), bits))
  }

  lemma Wrap32(x: int)
    requires -W32 <= x < W32
    ensures x < 0 ==> U32(x) == x + W32
    ensures x >= 0 ==> U32(x) == x
  {
  }

  lemma Wrap64(x: int)
    requires -W64 <= x < W64
    ensures x < 0 ==> U64(x) == x + W64
    ensures x >= 0 ==> U64(x) == x
  {
  }

  /** A 64-bit word covers a multiple of `2^32` pages. */
  lemma WordPages(bits: nat) returns (r: nat)
    requires bits <= 30
    ensures r >= 2 && W64 == Start(W32 * r, bits)
  {
    r := Bits.Pow2(32 - bits);
    assert Bits.Pow2(1) == 2;
    hide Bits.Pow2, Bits.Shr, Bits.And;
    PowersOf16();
    Pow2Sum(bits, 32 - bits);
    Pow2Order(1, 32 - bits);
    Regroup(W32, Bits.Pow2(bits), r);
  }

  lemma Regroup(a: int, b: int, c: int)
    ensures a * (b * c) == (a * c) * b == (a * b) * c
  {
  }

  /** What is reported when page `removed` leaves for an access to address `a` of a store at `base`. */
  lemma DropParts(base: nat, a: nat, removed: nat, bits: nat, n: nat)
    requires bits <= 30 && n <= W31 && a < Start(n, bits) && removed < n && base + Start(n, bits) <= W64
    ensures var exact := base + Start(removed, bits) + OffsetOf(a, bits);
      && 0 <= exact < W64
      && DropAddress(base + a, PageOf(a, bits), removed, bits) ==
         if removed <= PageOf(a, bits) then exact else exact - Start(W32, bits) + (if exact < Start(W32, bits) then W64 else 0)
  {
    var idx := PageOf(a, bits);
    hide Start, PageOf, OffsetOf, U32, U64, Bits.Pow2, Bits.Shr, Bits.And;
    Parts(a, bits);
    PageInRange(a, n, bits);
    StartMono(removed, n, bits);
    StartOne(bits);
    if removed > 0 {
      StartMono(0, removed, bits);
    }
    Wrap32(idx - removed);
    if removed <= idx {
      StartSum(idx, removed, bits);
    } else {
      var r := WordPages(bits);
      StartMono(W32, W32 * r, bits);
      StartMono(0, W32, bits);
      StartSum(idx, removed, bits);
      StartSum(idx - removed, W32, bits);
      Wrap64(base + Start(removed, bits) + OffsetOf(a, bits) - Start(W32, bits));
    }
  }

  /** The address lies in the removed page, at the faulting offset, exactly when the new page is not
      below the removed one. */
  lemma DropInPage(base: nat, a: nat, removed: nat, bits: nat, n: nat)
    requires bits <= 30 && n <= W31 && a < Start(n, bits) && removed < n && base + Start(n, bits) <= W64
    ensures var addr := DropAddress(base + a, PageOf(a, bits), removed, bits);
      && (addr == base + Start(removed, bits) + OffsetOf(a, bits) <==> removed <= PageOf(a, bits))
      && (base + Start(removed, bits) <= addr < base + Start(removed, bits) + Bits.Pow2(bits) <==> removed <= PageOf(a, bits))
  {
    hide Start, PageOf, OffsetOf, U32, U64, DropAddress, Bits.Pow2, Bits.Shr, Bits.And;
    DropParts(base, a, removed, bits, n);
    Parts(a, bits);
    var r := WordPages(bits);
    StartOne(bits);
    StartMono(1, W32, bits);
    StartMono(W32 + 1, W32 * r, bits);
    StartMono(W32, W32 + 1, bits);
  }

  /** In 32 bits the page index of that address is the removed page's all the same. */
  lemma DropIndex(base: nat, a: nat, removed: nat, bits: nat, n: nat)
    requires bits <= 30 && n <= W31 && a < Start(n, bits) && removed < n && base + Start(n, bits) <= W64
    ensures PageIndex(U64(DropAddress(base + a, PageOf(a, bits), removed, bits) - base), bits) == removed
  {
    hide Start, PageOf, OffsetOf, U32, U64, DropAddress, Bits.Pow2, Bits.Shr, Bits.And;
    var o := OffsetOf(a, bits);
    var x := Start(removed, bits) + o;
    DropParts(base, a, removed, bits, n);
    Parts(a, bits);
    StartMono(removed, n, bits);
    PartsUnique(removed, o, bits);
    if removed <= PageOf(a, bits) {
      ShiftAndMask(x, bits);
    } else {
      var r := WordPages(bits);
      var p := removed + W32 * r - W32;
      StartSum(removed, W32 * r, bits);
      StartSum(removed + W32 * r, W32, bits);
      StartMono(n, W32, bits);
      PartsUnique(p, o, bits);
      var y := Start(p, bits) + o;
      Wrap64(DropAddress(base + a, PageOf(a, bits), removed, bits) - base);
      ShiftAndMask(y, bits);
      Wrapped(removed, r);
    }
  }

  lemma Wrapped(removed: nat, r: nat)
    requires removed < W32 && r >= 1
    ensures U32(removed + W32 * r - W32) == removed
  {
    Modular.DivModUnique(removed + W32 * r - W32, r - 1, removed, W32);
  }
}
