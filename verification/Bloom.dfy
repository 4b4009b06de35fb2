/** The table's optional Bloom filter over hash values. */
module Bloom {
  import Bits

  /** The mask of a bit in its byte. */
  function Mask(k: nat): (m: bv8)
    requires k < 8
  {
    [1, 2, 4, 8, 16, 32, 64, 128][k]
  }

  predicate Bit(x: bv8, k: nat)
    requires k < 8
  {
    x & Mask(k) != 0
  }

  lemma MaskIsShift(k: nat)
    requires k < 8
    ensures Mask(k) == (1 as bv8) << k
  {
    assert (1 as bv8) << 0 == 1 && (1 as bv8) << 1 == 2 && (1 as bv8) << 2 == 4 && (1 as bv8) << 3 == 8;
    assert (1 as bv8) << 4 == 16 && (1 as bv8) << 5 == 32 && (1 as bv8) << 6 == 64 && (1 as bv8) << 7 == 128;
  }

  lemma MasksApart(j: nat, k: nat)
    requires j < 8 && k < 8
    ensures Mask(j) & Mask(k) == if j == k then Mask(k) else 0
    ensures Mask(k) != 0
  {
  }

  lemma OrAnd(x: bv8, m: bv8, n: bv8)
    requires n & m == 0 || n == m
    requires m != 0
    ensures (x | m) & n != 0 <==> n == m || x & n != 0
  {
  }

  lemma BitIs(x: bv8, k: nat)
    requires k < 8
    ensures Bit(x, k) <==> x & Mask(k) != 0
  {
  }

  /** Setting a bit changes that bit only. */
  lemma SetBit(x: bv8, k: nat, j: nat)
    requires k < 8 && j < 8
    ensures Bit(x | Mask(k), j) <==> j == k || Bit(x, j)
  {
    hide *;
    BitIs(x, j);
    BitIs(x | Mask(k), j);
    MasksApart(j, k);
    OrAnd(x, Mask(k), Mask(j));
  }

  lemma BitAfter(bs: seq<bv8>, i: nat, j: nat)
    requires i / 8 < |bs| && j / 8 < |bs|
    ensures Bit(bs[i / 8 := bs[i / 8] | Mask(i % 8)][j / 8], j % 8) <==> j == i || Bit(bs[j / 8], j % 8)
  {
    hide Bit, Mask;
    if j / 8 == i / 8 {
      SetBit(bs[i / 8], i % 8, j % 8);
      assert j == i <==> j % 8 == i % 8;
    }
  }

  /** Some value has the low `k` bits `i`. */
  ghost predicate Hits(values: set<nat>, i: nat, k: nat) {
    exists v :: v in values && v % Bits.Pow2(k) == i
  }

  lemma HitsMore(values: set<nat>, hashv: nat, k: nat)
    ensures forall i: nat :: Hits(values + {hashv}, i, k) <==> Hits(values, i, k) || i == hashv % Bits.Pow2(k)
  {
    forall i: nat ensures Hits(values + {hashv}, i, k) <==> Hits(values, i, k) || i == hashv % Bits.Pow2(k) {
      if Hits(values, i, k) {
        var v :| v in values && v % Bits.Pow2(k) == i;
        assert v in values + {hashv};
      }
      if i == hashv % Bits.Pow2(k) {
        assert hashv in values + {hashv};
      }
    }
  }

  class Filter {
    const nbits: nat
    const bv: array<bv8>
    /** The hash values added. */
    ghost var values: set<nat>

    ghost predicate Valid()
      reads this, bv
    {
      && bv.Length == Bits.Pow2(nbits) / 8 + (if Bits.Pow2(nbits) % 8 != 0 then 1 else 0)
      && (forall i :: 0 <= i < Bits.Pow2(nbits) ==> (Bit(bv[i / 8], i % 8) <==> Hits(values, i, nbits)))
    }

    function Index(hashv: nat): nat {
      Bits.And(hashv, Bits.Pow2(nbits) - 1)
    }

    constructor (nbits: nat)
      ensures Valid() && values == {} && this.nbits == nbits && fresh(bv)
    {
      this.nbits := nbits;
      values := {};
      bv := new bv8[Bits.Pow2(nbits) / 8 + (if Bits.Pow2(nbits) % 8 != 0 then 1 else 0)](_ => 0);
    }

    lemma IndexInRange(hashv: nat)
      requires Valid()
      ensures Index(hashv) == hashv % Bits.Pow2(nbits) < Bits.Pow2(nbits) && Index(hashv) / 8 < bv.Length
    {
      Bits.AndMask(hashv, nbits);
    }

    method Add(hashv: nat)
      requires Valid()
      modifies this, bv
      ensures Valid() && values == old(values) + {hashv}
    {
      hide Bit, Mask, Hits, Index;
      IndexInRange(hashv);
      var i := Index(hashv);
      ghost var bs, n := bv[..], Bits.Pow2(nbits);
      MaskIsShift(i % 8);
      bv[i / 8] := bv[i / 8] | ((1 as bv8) << (i % 8));
      assert bv[..] == bs[i / 8 := bs[i / 8] | Mask(i % 8)];
      HitsMore(values, hashv, nbits);
      forall j | 0 <= j < n ensures Bit(bv[j / 8], j % 8) <==> Hits(values, j, nbits) || j == i {
        assert old(Bit(bv[j / 8], j % 8) <==> Hits(values, j, nbits));
        BitAfter(bs, i, j);
        assert bv[j / 8] == bv[..][j / 8];
      }
      values := values + {hashv};
    }

    /** A test succeeds exactly for hash values that agree with an added one in the low bits. */
    method Test(hashv: nat) returns (found: bool)
      requires Valid()
      ensures found <==> exists v :: v in values && v % Bits.Pow2(nbits) == hashv % Bits.Pow2(nbits)
    {
      IndexInRange(hashv);
      var i := Index(hashv);
      MaskIsShift(i % 8);
      found := bv[i / 8] & ((1 as bv8) << (i % 8)) != 0;
      assert found <==> Bit(bv[i / 8], i % 8);
      assert Hits(values, i, nbits) <==> exists v :: v in values && v % Bits.Pow2(nbits) == i;
    }
  }
}
