/** Pointer tags: the four top bits name the store. */
module Tags {
  import Bits
  import Modular
  import opened Addresses

  const W60 := 0x1000_0000_0000_0000

  /** The tag of store `k`, in the top four bits. */
  function TagOf(k: nat): nat {
    if k == 0 then 12 else if k == 1 then 10 else if k == 2 then 9 else 11
  }

  function MakePtr(k: nat, x: nat): nat {
    Bits.Or(x, TagOf(k) * W60)
  }

  function TopByte(ptr: nat): nat {
    Bits.Shr(ptr, 60)
  }

  function OriginalPtr(ptr: nat): nat {
    Bits.And(ptr, W60 - 1)
  }

  predicate IsTagged(ptr: nat) {
    Bits.Shr(ptr, 63) % 2 == 1
  }

  lemma Power60()
    ensures Bits.Pow2(60) == W60 && Bits.Pow2(63) == 8 * W60
  {
    PowersOf16();
    Pow2Sum(60, 4);
    Pow2Sum(3, 60);
    assert Bits.Pow2(2) == 4;
    assert Bits.Pow2(3) == 8;
  }

  /** The parts of a tagged pointer. */
  lemma TagParts(k: nat, x: nat)
    requires k < 4 && x < W60
    ensures var t := TagOf(k);
      var p := x + t * W60;
      && 8 <= t < 16 && p < W64
      && p / W60 == t && p % W60 == x && p / (8 * W60) == 1 && x / (8 * W60) == 0
  {
    var t := TagOf(k);
    var p := x + t * W60;
    Modular.DivModUnique(p, t, x, W60);
    Modular.DivModUnique(p, 1, p - 8 * W60, 8 * W60);
    Modular.DivModUnique(x, 0, x, 8 * W60);
  }

  lemma TagIs(k: nat)
    requires k < 4
    ensures TagOf(k) == [12, 10, 9, 11][k] && W60 == 0x1000_0000_0000_0000
  {
  }

  lemma TagsDiffer(j: nat, k: nat)
    requires j < 4 && k < 4 && TagOf(j) == TagOf(k)
    ensures j == k
  {
  }

  lemma PtrIs(k: nat, x: nat)
    ensures MakePtr(k, x) == Bits.Or(x, TagOf(k) * W60)
    ensures forall p :: TopByte(p) == Bits.Shr(p, 60) && OriginalPtr(p) == Bits.And(p, W60 - 1)
    ensures forall p :: IsTagged(p) <==> Bits.Shr(p, 63) % 2 == 1
  {
    hide Bits.Or, Bits.Shr, Bits.And;
  }

  /** Tagging loses nothing: the address and the store come back, tagged pointers are recognised, and
      plain addresses are not. */
  lemma TagRoundTrip(k: nat, x: nat)
    requires k < 4 && x < W60
    ensures MakePtr(k, x) < W64 && IsTagged(MakePtr(k, x)) && !IsTagged(x)
    ensures OriginalPtr(MakePtr(k, x)) == x && TopByte(MakePtr(k, x)) == TagOf(k) == [12, 10, 9, 11][k]
    ensures MakePtr(k, x) == x + [12, 10, 9, 11][k] * 0x1000_0000_0000_0000
    ensures forall j: nat :: j < 4 && TopByte(MakePtr(k, x)) == TagOf(j) ==> j == k
  {
    hide *;
    var t := TagOf(k);
    var p := x + t * W60;
    Power60();
    TagParts(k, x);
    PtrIs(k, x);
    TagIs(k);
    Bits.OrShifted(x, t, 60);
    Bits.ShrIsDiv(p, 60);
    Bits.AndMask(p, 60);
    Bits.ShrIsDiv(p, 63);
    Bits.ShrIsDiv(x, 63);
    forall j: nat | j < 4 && TopByte(MakePtr(k, x)) == TagOf(j) ensures j == k {
      TagsDiffer(j, k);
    }
  }
}
