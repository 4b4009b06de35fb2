/** The elements of the intrusive hash table, with the links of its two structures seen as sequences. */
module HashElems {
  import Bits
  import Modular
  import opened MergeSort

  type Key = seq<bv8>

  /** An element with its embedded hash handle. The application's part does not change while the
      element is in a table. */
  class Elem {
    const key: Key
    const data: int
    var hashv: nat
    var prev: Elem?
    var next: Elem?
    var hhPrev: Elem?
    var hhNext: Elem?

    constructor (key: Key, data: int)
      ensures this.key == key && this.data == data
    {
      this.key, this.data := key, data;
      hashv, prev, next, hhPrev, hhNext := 0, null, null, null, null;
    }
  }

  datatype Bucket = Bucket(head: Elem?, count: nat, expandMult: nat)

  /** The bucket of a hash value, by masking. */
  function ToBkt(hashv: nat, numBuckets: nat): nat
    requires numBuckets > 0
  {
    Bits.And(hashv, numBuckets - 1)
  }

  lemma ToBktIsMod(hashv: nat, k: nat)
    ensures ToBkt(hashv, Bits.Pow2(k)) == hashv % Bits.Pow2(k) < Bits.Pow2(k)
  {
    Bits.AndMask(hashv, k);
  }

  // ---------- Links over a sequence of elements ----------

  ghost predicate NoDup(s: seq<Elem>) {
    forall i, j :: 0 <= i < j < |s| ==> s[i] != s[j]
  }

  ghost function First(s: seq<Elem>): Elem? {
    if s == [] then null else s[0]
  }

  ghost function Last(s: seq<Elem>): Elem? {
    if s == [] then null else s[|s| - 1]
  }

  ghost function NextIn(s: seq<Elem>, i: int): Elem? {
    if 0 <= i + 1 < |s| then s[i + 1] else null
  }

  ghost function PrevIn(s: seq<Elem>, i: int): Elem? {
    if 0 <= i - 1 < |s| then s[i - 1] else null
  }

  ghost function ElemAt(s: seq<Elem>, i: nat): Elem? {
    if i < |s| then s[i] else null
  }

  lemma ElemAtIs(s: seq<Elem>, i: nat)
    ensures ElemAt(s, i) == if i < |s| then s[i] else null
  {
  }

  ghost predicate Linked(s: seq<Elem>)
    reads s`next, s`prev
  {
    && (forall i {:trigger s[i].next} :: 0 <= i < |s| ==> s[i].next == NextIn(s, i))
    && (forall i {:trigger s[i].prev} :: 0 <= i < |s| ==> s[i].prev == PrevIn(s, i))
  }

  ghost predicate Chained(s: seq<Elem>)
    reads s`hhNext, s`hhPrev
  {
    && (forall i {:trigger s[i].hhNext} :: 0 <= i < |s| ==> s[i].hhNext == NextIn(s, i))
    && (forall i {:trigger s[i].hhPrev} :: 0 <= i < |s| ==> s[i].hhPrev == PrevIn(s, i))
  }

  /** A chain of a table of `n` buckets, seen from bucket `b`. */
  ghost predicate GoodChain(c: seq<Elem>, bkt: Bucket, b: nat, n: nat)
    requires n > 0
    reads c`hhNext, c`hhPrev, c`hashv
  {
    && NoDup(c) && Chained(c) && bkt.head == First(c) && bkt.count == |c|
    && forall j :: 0 <= j < |c| ==> ToBkt(c[j].hashv, n) == b
  }

  ghost function Without(s: seq<Elem>, j: nat): seq<Elem>
    requires j < |s|
  {
    s[..j] + s[j + 1..]
  }

  ghost function Elems(s: seq<Elem>): set<Elem> {
    set e | e in s
  }

  ghost predicate NextLinked(c: seq<Elem>)
    reads c`hhNext
  {
    forall t {:trigger c[t].hhNext} :: 0 <= t < |c| ==> c[t].hhNext == NextIn(c, t)
  }

  ghost function Members(cs: seq<seq<Elem>>): set<Elem> {
    set i, e | 0 <= i < |cs| && e in cs[i] :: e
  }

  lemma MemberOf(cs: seq<seq<Elem>>, i: nat)
    requires i < |cs|
    ensures forall e :: e in cs[i] ==> e in Members(cs)
  {
  }

  ghost predicate BackLinked(c: seq<Elem>)
    reads c`hhPrev
  {
    forall t {:trigger c[t].hhPrev} :: 0 <= t < |c| ==> c[t].hhPrev == PrevIn(c, t)
  }

  ghost predicate Inside(s: seq<Elem>, p: seq<Elem>) {
    forall i :: 0 <= i < |s| ==> s[i] in p
  }

  /** New buckets that the elements of `p`, in this order, were moved to. */
  ghost predicate Filled(bs: seq<Bucket>, r: seq<seq<Elem>>, p: seq<Elem>, ideal: nat, nonideal: nat)
    reads p`hhNext, p`hhPrev, p`hashv
  {
    && |r| == |bs| > 0 && nonideal == ExcessOf(r, ideal)
    && forall j :: 0 <= j < |r| ==>
      && Inside(r[j], p) && GoodChain(r[j], bs[j], j, |r|) && r[j] == Dist(p, |r|, j)
      && (ideal > 0 ==> MultOk(bs[j].count, bs[j].expandMult, ideal))
  }

  ghost function Flat(cs: seq<seq<Elem>>): seq<Elem> {
    if cs == [] then [] else Flat(cs[..|cs| - 1]) + cs[|cs| - 1]
  }

  lemma {:induction false} FlatWitness(cs: seq<seq<Elem>>, e: Elem) returns (b: nat)
    requires e in Flat(cs)
    ensures b < |cs| && e in cs[b]
    decreases |cs|
  {
    if e in cs[|cs| - 1] {
      b := |cs| - 1;
    } else {
      b := FlatWitness(cs[..|cs| - 1], e);
    }
  }

  lemma {:induction false} FlatMember(cs: seq<seq<Elem>>, b: nat, e: Elem)
    requires b < |cs| && e in cs[b]
    ensures e in Flat(cs)
    decreases |cs|
  {
    if b < |cs| - 1 {
      FlatMember(cs[..|cs| - 1], b, e);
    }
  }

  /** Each chain holds elements of `m` once, in the bucket of their hash value. */
  ghost predicate Placed(cs: seq<seq<Elem>>, m: set<Elem>, n: nat)
    requires n > 0
    reads m`hashv
  {
    forall b :: 0 <= b < |cs| ==>
      && NoDup(cs[b]) && Within(cs[b], m)
      && forall t {:trigger cs[b][t].hashv} :: 0 <= t < |cs[b]| ==> ToBkt(cs[b][t].hashv, n) == b
  }

  lemma PlacedAt(cs: seq<seq<Elem>>, m: set<Elem>, n: nat, b: nat)
    requires n > 0 && Placed(cs, m, n) && b < |cs|
    ensures NoDup(cs[b]) && forall e :: e in cs[b] ==> e in m && ToBkt(e.hashv, n) == b
  {
    hide ToBkt;
    forall e | e in cs[b] ensures e in m && ToBkt(e.hashv, n) == b {
      var t :| 0 <= t < |cs[b]| && cs[b][t] == e;
    }
  }

  lemma FlatDisjoint(cs: seq<seq<Elem>>, i: nat, m: set<Elem>, n: nat)
    requires i < |cs| == n && Placed(cs, m, n)
    ensures NoDup(cs[i]) && forall e :: e in cs[i] ==> e !in Flat(cs[..i])
    ensures forall h, t {:trigger cs[h][t]} :: 0 <= h < |cs| && h != i && 0 <= t < |cs[h]| ==> cs[h][t] !in cs[i]
    ensures Within(cs[i], m)
  {
    hide ToBkt, Flat, Placed;
    PlacedAt(cs, m, n, i);
    forall e | e in Flat(cs[..i]) ensures e !in cs[i] {
      var b := FlatWitness(cs[..i], e);
      PlacedAt(cs, m, n, b);
    }
    forall h, t | 0 <= h < |cs| && h != i && 0 <= t < |cs[h]| ensures cs[h][t] !in cs[i] {
      PlacedAt(cs, m, n, h);
      assert cs[h][t] in cs[h];
    }
  }

  lemma FlatWithin(cs: seq<seq<Elem>>, i: nat, m: set<Elem>, n: nat)
    requires i <= |cs| && n > 0 && Placed(cs, m, n)
    ensures Within(Flat(cs[..i]), m)
  {
    hide Flat, Placed;
    forall e | e in Flat(cs[..i]) ensures e in m {
      var b := FlatWitness(cs[..i], e);
      PlacedAt(cs, m, n, b);
    }
  }

  lemma FlatNone(cs: seq<seq<Elem>>)
    ensures Flat(cs[..0]) == []
  {
  }

  lemma FlatSnoc(cs: seq<seq<Elem>>, i: nat)
    requires i < |cs|
    ensures Flat(cs[..i + 1]) == Flat(cs[..i]) + cs[i]
  {
    assert cs[..i + 1][..i] == cs[..i];
  }

  lemma NewBucketsInRange(c: seq<Elem>, n: nat, k: nat)
    requires n == Bits.Pow2(k)
    ensures forall e :: e in c ==> ToBkt(e.hashv, 2 * n) < 2 * n
  {
    forall e | e in c ensures ToBkt(e.hashv, 2 * n) < 2 * n {
      ToBktIsMod(e.hashv, k + 1);
    }
  }

  lemma {:induction false} NoExcess(r: seq<seq<Elem>>, ideal: nat)
    requires forall j :: 0 <= j < |r| ==> r[j] == []
    ensures ExcessOf(r, ideal) == 0
    decreases |r|
  {
    if r != [] {
      NoExcess(r[..|r| - 1], ideal);
    }
  }

  /** The elements of `c` that belong to bucket `j` of `n`, last first. */
  ghost function Dist(c: seq<Elem>, n: nat, j: nat): seq<Elem>
    requires n > 0
    reads c`hashv
  {
    if c == [] then []
    else (if ToBkt(c[|c| - 1].hashv, n) == j then [c[|c| - 1]] else []) + Dist(c[..|c| - 1], n, j)
  }

  lemma {:induction false} DistMember(c: seq<Elem>, n: nat, j: nat, e: Elem)
    requires n > 0
    ensures e in Dist(c, n, j) <==> e in c && ToBkt(e.hashv, n) == j
    decreases |c|
  {
    hide ToBkt;
    if c != [] {
      var k := |c| - 1;
      DistMember(c[..k], n, j, e);
      assert c == c[..k] + [c[k]];
    }
  }

  lemma DistSnoc(c: seq<Elem>, e: Elem, n: nat)
    requires n > 0
    ensures forall j: nat :: Dist(c + [e], n, j) == (if ToBkt(e.hashv, n) == j then [e] + Dist(c, n, j) else Dist(c, n, j))
  {
    hide ToBkt;
    assert (c + [e])[..|c + [e]| - 1] == c;
  }

  lemma NewChainsDisjoint(cs: seq<seq<Elem>>, bs: seq<Bucket>, b: nat)
    requires |cs| == |bs| > 0 && b < |cs|
    requires forall j :: 0 <= j < |cs| ==> GoodChain(cs[j], bs[j], j, |cs|)
    ensures forall j, e :: 0 <= j < |cs| && j != b && e in cs[j] ==> e !in cs[b]
  {
    hide ToBkt;
    forall j, e | 0 <= j < |cs| && j != b && e in cs[j] ensures e !in cs[b] {
      assert GoodChain(cs[j], bs[j], j, |cs|) && GoodChain(cs[b], bs[b], b, |cs|);
    }
  }

  // ---------- Counters of an expansion ----------

  function Excess(count: nat, ideal: nat): nat {
    if count > ideal then count - ideal else 0
  }

  /** The items beyond the ideal length, over all chains. */
  ghost function ExcessOf(cs: seq<seq<Elem>>, ideal: nat): nat {
    if cs == [] then 0 else ExcessOf(cs[..|cs| - 1], ideal) + Excess(|cs[|cs| - 1]|, ideal)
  }

  /** The positions of these items. */
  ghost function Beyond(cs: seq<seq<Elem>>, ideal: nat): set<(nat, nat)> {
    set j: nat, t: nat | j < |cs| && ideal <= t < |cs[j]| :: (j, t)
  }

  lemma {:induction false} RowSize(j: nat, i: nat, k: nat) returns (row: set<(nat, nat)>)
    ensures forall p: (nat, nat) :: p in row <==> p.0 == j && i <= p.1 < k
    ensures |row| == if k > i then k - i else 0
    decreases k
  {
    if k <= i {
      row := {};
    } else {
      row := RowSize(j, i, k - 1);
      row := row + {(j, k - 1)};
    }
  }

  /** The counter is the number of items that have `ideal` or more before them in their chain. */
  lemma {:induction false} ExcessCounts(cs: seq<seq<Elem>>, ideal: nat)
    ensures ExcessOf(cs, ideal) == |Beyond(cs, ideal)|
    decreases |cs|
  {
    if cs != [] {
      var n := |cs| - 1;
      ExcessCounts(cs[..n], ideal);
      var row := RowSize(n, ideal, |cs[n]|);
      assert Beyond(cs, ideal) == Beyond(cs[..n], ideal) + row;
      assert Beyond(cs[..n], ideal) !! row;
    }
  }

  lemma {:induction false} ExcessUpdate(cs: seq<seq<Elem>>, b: nat, c: seq<Elem>, ideal: nat)
    requires b < |cs|
    ensures ExcessOf(cs[b := c], ideal) + Excess(|cs[b]|, ideal) == ExcessOf(cs, ideal) + Excess(|c|, ideal)
    decreases |cs|
  {
    var n := |cs| - 1;
    if b == n {
      assert cs[b := c][..n] == cs[..n];
    } else {
      ExcessUpdate(cs[..n], b, c, ideal);
      assert cs[b := c][..n] == cs[..n][b := c];
    }
  }

  /** An over-ideal bucket tolerates the smallest multiple of the ideal length that it needs, and one
      less for the first item beyond that length, or for all of them if the length is 1. */
  predicate MultOk(count: nat, mult: nat, ideal: nat) {
    if count <= ideal then mult == 0
    else if count == ideal + 1 then mult == 1
    else (mult - 1) * ideal < count - (if ideal == 1 then 1 else 0) <= mult * ideal
  }

  lemma MultStep(count: nat, mult: nat, ideal: nat)
    requires ideal > 0 && MultOk(count, mult, ideal)
    ensures MultOk(count + 1, if count + 1 > ideal && count + 1 > mult * ideal then mult + 1 else mult, ideal)
  {
    assert (mult + 1) * ideal == mult * ideal + ideal;
    assert (mult - 1) * ideal == mult * ideal - ideal;
    if count == ideal + 1 {
      assert mult * ideal == ideal;
    }
  }

  /** A list without one of its elements; the others keep their order. */
  function Removed(s: seq<Elem>, e: Elem): seq<Elem> {
    if s == [] then []
    else if s[0] == e then s[1..]
    else [s[0]] + Removed(s[1..], e)
  }

  ghost function IndexOf(s: seq<Elem>, e: Elem): (k: nat)
    requires e in s
    ensures k < |s| && s[k] == e
  {
    if s[0] == e then 0 else 1 + IndexOf(s[1..], e)
  }

  lemma RemovedCases(s: seq<Elem>, e: Elem)
    requires s != []
    ensures Removed(s, e) == if s[0] == e then s[1..] else [s[0]] + Removed(s[1..], e)
  {
  }

  lemma WithoutCases(s: seq<Elem>, k: nat)
    requires k < |s|
    ensures Without(s, k) == if k == 0 then s[1..] else [s[0]] + Without(s[1..], k - 1)
  {
  }

  lemma NoDupRest(s: seq<Elem>, k: nat)
    requires NoDup(s) && 0 < k < |s|
    ensures s[0] != s[k] && NoDup(s[1..])
  {
  }

  lemma {:induction false} RemovedAt(s: seq<Elem>, k: nat)
    requires NoDup(s) && k < |s|
    ensures Removed(s, s[k]) == Without(s, k)
    decreases |s|
  {
    hide *;
    RemovedCases(s, s[k]);
    WithoutCases(s, k);
    if k > 0 {
      NoDupRest(s, k);
      RemovedAt(s[1..], k - 1);
    }
  }

  lemma RemovedElems(s: seq<Elem>, e: Elem)
    requires NoDup(s) && e in s
    ensures forall x :: x in Removed(s, e) <==> x in s && x != e
  {
    RemovedAt(s, IndexOf(s, e));
    WithoutElems(s, IndexOf(s, e));
  }

  lemma OnlyOne(s: seq<Elem>, k: nat)
    requires Linked(s) && k < |s|
    ensures s[k].prev == null && s[k].next == null <==> |s| == 1
    ensures |s| == 1 ==> Without(s, k) == []
  {
    assert s[k].next == NextIn(s, k) && s[k].prev == PrevIn(s, k);
  }

  lemma ChainedWithout(c: seq<Elem>, j: nat)
    requires j < |c|
    requires forall i {:trigger c[i].hhNext} :: 0 <= i < |c| ==> c[i].hhNext == if i == j - 1 then NextIn(c, j) else NextIn(c, i)
    requires forall i {:trigger c[i].hhPrev} :: 0 <= i < |c| ==> c[i].hhPrev == if i == j + 1 then PrevIn(c, j) else PrevIn(c, i)
    ensures Chained(Without(c, j))
  {
    WithoutAt(c, j);
  }

  lemma LinkedWithout(s: seq<Elem>, j: nat)
    requires j < |s|
    requires forall i {:trigger s[i].next} :: 0 <= i < |s| ==> s[i].next == if i == j - 1 then NextIn(s, j) else NextIn(s, i)
    requires forall i {:trigger s[i].prev} :: 0 <= i < |s| ==> s[i].prev == if i == j + 1 then PrevIn(s, j) else PrevIn(s, i)
    ensures Linked(Without(s, j))
  {
    WithoutAt(s, j);
  }

  lemma LinkedInsert(s: seq<Elem>, k: nat, add: Elem)
    requires k < |s| && add !in s && NoDup(s)
    requires forall i {:trigger s[i].next} :: 0 <= i < |s| ==> s[i].next == if i == k - 1 then add else NextIn(s, i)
    requires forall i {:trigger s[i].prev} :: 0 <= i < |s| ==> s[i].prev == if i == k then add else PrevIn(s, i)
    requires add.next == s[k] && add.prev == PrevIn(s, k)
    ensures Linked(s[..k] + [add] + s[k..]) && NoDup(s[..k] + [add] + s[k..])
  {
    var t := s[..k] + [add] + s[k..];
    assert forall i :: 0 <= i < |t| ==> t[i] == if i < k then s[i] else if i == k then add else s[i - 1];
  }

  lemma WithoutAt(s: seq<Elem>, j: nat)
    requires j < |s|
    ensures |Without(s, j)| == |s| - 1
    ensures forall i :: 0 <= i < |s| - 1 ==> Without(s, j)[i] == if i < j then s[i] else s[i + 1]
  {
  }

  lemma EndsWithout(s: seq<Elem>, j: nat)
    requires j < |s| && |s| > 1
    ensures First(Without(s, j)) == if j == 0 then s[1] else s[0]
    ensures Last(Without(s, j)) == if j == |s| - 1 then s[|s| - 2] else s[|s| - 1]
  {
    WithoutAt(s, j);
  }

  lemma HeadWithout(c: seq<Elem>, j: nat)
    requires NoDup(c) && j < |c|
    ensures First(Without(c, j)) == if c[0] == c[j] then NextIn(c, j) else c[0]
  {
    WithoutAt(c, j);
  }

  lemma WithoutElems(s: seq<Elem>, j: nat)
    requires NoDup(s) && j < |s|
    ensures forall e :: e in Without(s, j) <==> e in s && e != s[j]
    ensures NoDup(Without(s, j))
  {
    var d := Without(s, j);
    assert forall i :: 0 <= i < |d| ==> d[i] == if i < j then s[i] else s[i + 1];
    forall e | e in s && e != s[j] ensures e in d {
      var i :| 0 <= i < |s| && s[i] == e;
      assert d[if i < j then i else i - 1] == e;
    }
  }

  /** Every element of `m` is in the chain of its bucket. */
  ghost predicate Gathered(cs: seq<seq<Elem>>, m: set<Elem>, n: nat)
    requires n > 0
    reads m`hashv
  {
    forall e {:trigger e.hashv} :: e in m ==> ToBkt(e.hashv, n) < |cs| && e in cs[ToBkt(e.hashv, n)]
  }

  // ---------- Where an expansion sends the elements ----------

  lemma FilledParts(bs: seq<Bucket>, r: seq<seq<Elem>>, p: seq<Elem>, ideal: nat, nonideal: nat)
    requires Filled(bs, r, p, ideal, nonideal)
    ensures |r| == |bs| > 0 && nonideal == ExcessOf(r, ideal)
    ensures forall j :: 0 <= j < |r| ==> Inside(r[j], p) && GoodChain(r[j], bs[j], j, |r|) && r[j] == Dist(p, |r|, j)
    ensures ideal > 0 ==> forall j :: 0 <= j < |r| ==> MultOk(bs[j].count, bs[j].expandMult, ideal)
  {
  }

  lemma {:induction false} DistAppend(a: seq<Elem>, b: seq<Elem>, n: nat, j: nat)
    requires n > 0
    ensures Dist(a + b, n, j) == Dist(b, n, j) + Dist(a, n, j)
    decreases |b|
  {
    hide ToBkt;
    if b == [] {
      assert a + b == a;
    } else {
      var k := |b| - 1;
      assert (a + b)[..|a + b| - 1] == a + b[..k];
      DistAppend(a, b[..k], n, j);
    }
  }

  lemma {:induction false} DistNone(c: seq<Elem>, n: nat, j: nat)
    requires n > 0 && forall e :: e in c ==> ToBkt(e.hashv, n) != j
    ensures Dist(c, n, j) == []
    decreases |c|
  {
    hide ToBkt;
    if c != [] {
      assert c[|c| - 1] in c;
      DistNone(c[..|c| - 1], n, j);
    }
  }

  /** The bucket of `n` that bucket `j` of `2n` draws from: `j` or `j - n`. */
  function OldBucket(j: nat, n: nat): (i: nat)
    requires n > 0
    ensures i < n && (j < 2 * n ==> i == j || i + n == j)
  {
    Modular.HalfMod(j, n);
    j % n
  }

  /** Doubling the buckets refines them: bucket `j` of `2n` draws from bucket `j % n` of `n`. */
  lemma DoubleMask(h: nat, k: nat)
    ensures var n := Bits.Pow2(k); ToBkt(h, 2 * n) < 2 * n && ToBkt(h, 2 * n) % n == ToBkt(h, n) < n
  {
    ToBktIsMod(h, k);
    ToBktIsMod(h, k + 1);
    DoubledBuckets(k);
    hide *;
    Modular.ModOfDouble(h, Bits.Pow2(k));
  }

  lemma NothingFlat(cs: seq<seq<Elem>>, n: nat, j: nat)
    requires n > 0
    ensures Dist(Flat(cs[..0]), n, j) == []
  {
  }

  lemma {:induction false} SplitUpTo(cs: seq<seq<Elem>>, m: set<Elem>, n: nat, k: nat, i: nat, j: nat)
    requires n == Bits.Pow2(k) == |cs| && Placed(cs, m, n) && i <= n && j < 2 * n
    ensures Dist(Flat(cs[..i]), 2 * n, j) == if j % n < i then Dist(cs[j % n], 2 * n, j) else []
    decreases i
  {
    hide ToBkt, Placed, Flat, Dist;
    if i == 0 {
      NothingFlat(cs, 2 * n, j);
    } else {
      SplitUpTo(cs, m, n, k, i - 1, j);
      FlatSnoc(cs, i - 1);
      DistAppend(Flat(cs[..i - 1]), cs[i - 1], 2 * n, j);
      if j % n != i - 1 {
        PlacedAt(cs, m, n, i - 1);
        forall e | e in cs[i - 1] ensures ToBkt(e.hashv, 2 * n) != j {
          DoubleMask(e.hashv, k);
        }
        DistNone(cs[i - 1], 2 * n, j);
      }
    }
  }

  lemma SplitChains(cs: seq<seq<Elem>>, m: set<Elem>, n: nat, k: nat)
    requires n == Bits.Pow2(k) == |cs| && Placed(cs, m, n)
    ensures forall j: nat :: j < 2 * n ==> Dist(Flat(cs), 2 * n, j) == Dist(cs[OldBucket(j, n)], 2 * n, j)
  {
    hide Placed, Flat, Dist, Bits.Pow2;
    forall j: nat | j < 2 * n ensures Dist(Flat(cs), 2 * n, j) == Dist(cs[OldBucket(j, n)], 2 * n, j) {
      SplitUpTo(cs, m, n, k, n, j);
      assert cs[..n] == cs;
    }
  }

  /** No element is lost. */
  lemma Regrouped(cs: seq<seq<Elem>>, r: seq<seq<Elem>>, m: set<Elem>, n: nat, k: nat)
    requires n == Bits.Pow2(k) == |cs| && |r| == 2 * n
    requires Gathered(cs, m, n)
    requires forall j: nat :: j < 2 * n ==> r[j] == Dist(cs[OldBucket(j, n)], 2 * n, j)
    ensures Gathered(r, m, 2 * n)
  {
    hide ToBkt, Dist, Bits.Pow2;
    forall e | e in m ensures ToBkt(e.hashv, 2 * n) < |r| && e in r[ToBkt(e.hashv, 2 * n)] {
      DoubleMask(e.hashv, k);
      DistMember(cs[ToBkt(e.hashv, n)], 2 * n, ToBkt(e.hashv, 2 * n), e);
    }
  }

  lemma DoubledBuckets(k: nat)
    ensures Bits.Pow2(k + 1) == 2 * Bits.Pow2(k)
  {
  }

  lemma Halving(x: nat)
    ensures Bits.Shr(x, 1) == x / 2
  {
    assert Bits.Shr(x / 2, 0) == x / 2;
  }

  /** `i` is the quotient of `x` and `n`, rounded up. */
  predicate IsCeil(i: nat, x: nat, n: nat) {
    x <= i * n && (x > 0 ==> (i - 1) * n < x)
  }

  /** The shift-and-mask form of the ideal chain length is the rounded-up quotient. */
  lemma IdealIsCeil(x: nat, k: nat)
    ensures var n := Bits.Pow2(k);
      var i := Bits.Shr(x, k) + (if Bits.And(x, n - 1) != 0 then 1 else 0);
      IsCeil(i, x, n) && (x > 0 ==> i > 0)
  {
    Bits.ShrIsDiv(x, k);
    Bits.AndMask(x, k);
    hide Bits.Pow2, Bits.Shr, Bits.And;
    Modular.CeilDiv(x, Bits.Pow2(k));
  }

  /** An expansion from `n` chains over `m` sends chain `i` to chains `i` and `i + n` only. */
  ghost predicate Expansion(cs: seq<seq<Elem>>, r: seq<seq<Elem>>, n: nat, n': nat, m: set<Elem>)
    reads m`hashv
  {
    && |cs| == n > 0 && |r| == n' == 2 * n
    && forall j: nat :: j < |r| ==>
      && Within(cs[OldBucket(j, n)], m) && Within(r[j], m)
      && r[j] == Dist(cs[OldBucket(j, n)], n', j)
  }

  /** The counters that an expansion leaves. */
  ghost predicate Balanced(bs: seq<Bucket>, r: seq<seq<Elem>>, ideal: nat, nonideal: nat) {
    && |bs| == |r| && nonideal == ExcessOf(r, ideal)
    && forall j :: 0 <= j < |r| ==> MultOk(bs[j].count, bs[j].expandMult, ideal)
  }

  /** What a table keeps of its buckets: chains, tolerated multiples, and counters. */
  datatype Shape = Shape(chains: seq<seq<Elem>>, mults: seq<nat>, numItems: nat, ideal: nat, nonideal: nat, ineff: nat,
                         noexpand: bool)

  ghost function NewShape(): Shape {
    Shape(seq(32, _ => []), seq(32, _ => 0), 0, 0, 0, 0, false)
  }

  /** An element with hash value `hashv` comes to the front of its bucket. If that makes ten items, or
      ten times the tolerated multiple plus one, all elements move to twice as many buckets. */
  ghost predicate Grows(s: Shape, s': Shape, add: Elem, hashv: nat, m: set<Elem>)
    reads m`hashv
  {
    var n := |s.chains|;
    && n == |s.mults| > 0
    && var h := hashv % n;
    var mid := s.chains[h := [add] + s.chains[h]];
    if !s.noexpand && |s.chains[h]| + 1 >= (s.mults[h] + 1) * 10 then
      && |s'.chains| == |s'.mults| == 2 * n && Expansion(mid, s'.chains, n, 2 * n, m)
      && s'.numItems == s.numItems + 1 && IsCeil(s'.ideal, s'.numItems, 2 * n)
      && s'.nonideal == ExcessOf(s'.chains, s'.ideal)
      && (forall j :: 0 <= j < 2 * n ==> MultOk(|s'.chains[j]|, s'.mults[j], s'.ideal))
      && s'.ineff == (if s'.nonideal > s'.numItems / 2 then s.ineff + 1 else 0)
      && s'.noexpand == (s'.ineff > 1)
    else s' == s.(chains := mid, numItems := s.numItems + 1)
  }

  /** An element with hash value `hashv` leaves its bucket. */
  ghost function Shrunk(s: Shape, del: Elem, hashv: nat): Shape {
    if s.chains == [] || s.numItems == 0 then s
    else
      var h := hashv % |s.chains|;
      s.(chains := s.chains[h := Removed(s.chains[h], del)], numItems := s.numItems - 1)
  }

  ghost function Mults(bs: seq<Bucket>): seq<nat> {
    seq(|bs|, i requires 0 <= i < |bs| => bs[i].expandMult)
  }

  lemma MultsAt(bs: seq<Bucket>)
    ensures |Mults(bs)| == |bs| && forall i :: 0 <= i < |bs| ==> Mults(bs)[i] == bs[i].expandMult
  {
  }

  lemma SameMults(bs: seq<Bucket>, bs': seq<Bucket>)
    requires |bs| == |bs'| && forall i :: 0 <= i < |bs| ==> bs'[i].expandMult == bs[i].expandMult
    ensures Mults(bs') == Mults(bs)
  {
  }

  /** A table's first element leaves it with 32 buckets. */
  lemma FirstGrows(s': Shape, add: Elem, hashv: nat, m: set<Elem>)
    requires Grows(NewShape(), s', add, hashv, m)
    ensures |s'.chains| == 32
  {
  }

  /** An addition to a table with `n` buckets doubles them exactly if the element's chain has come to its
      threshold and expansion is not inhibited. */
  ghost predicate Resized(n: nat, chains: seq<seq<Elem>>, bs: seq<Bucket>, noexpand: bool, hashv: nat, n': nat) {
    && n == |chains| == |bs| > 0
    && var h := hashv % n;
    n' == if !noexpand && |chains[h]| + 1 >= (bs[h].expandMult + 1) * 10 then 2 * n else n
  }

  lemma GrowsResized(s: Shape, bs: seq<Bucket>, s': Shape, add: Elem, hashv: nat, m: set<Elem>)
    requires Grows(s, s', add, hashv, m) && s.mults == Mults(bs) && |bs| == |s.chains|
    ensures Resized(|s.chains|, s.chains, bs, s.noexpand, hashv, |s'.chains|)
  {
    MultsAt(bs);
    hide Mults, Expansion, ExcessOf;
  }

  /** An addition, from its two steps. */
  lemma IsGrown(s: Shape, mid: Shape, s': Shape, bs: seq<Bucket>, add: Elem, b: nat, m: set<Elem>)
    requires |s.chains| == |s.mults| > 0 && b == add.hashv % |s.chains|
    requires mid == s.(chains := s.chains[b := [add] + s.chains[b]], numItems := s.numItems + 1)
    requires if |mid.chains[b]| >= (s.mults[b] + 1) * 10 && !s.noexpand then
      && Expansion(mid.chains, s'.chains, |s.chains|, 2 * |s.chains|, m) && s'.numItems == mid.numItems
      && IsCeil(s'.ideal, s'.numItems, 2 * |s.chains|) && Balanced(bs, s'.chains, s'.ideal, s'.nonideal)
      && s'.mults == Mults(bs) && (forall j :: 0 <= j < |bs| ==> bs[j].count == |s'.chains[j]|)
      && s'.ineff == (if s'.nonideal > s'.numItems / 2 then s.ineff + 1 else 0)
      && s'.noexpand == (s'.ineff > 1)
    else s' == mid
    ensures Grows(s, s', add, add.hashv, m)
  {
    hide MultOk, ExcessOf, Dist, OldBucket, Within, IsCeil;
    MultsAt(bs);
    hide Mults;
  }

  /** What an expansion leaves, given where the elements were. */
  lemma ExpansionFacts(bs: seq<Bucket>, r: seq<seq<Elem>>, cs: seq<seq<Elem>>, m: set<Elem>, n: nat, k: nat,
                       ideal: nat, nonideal: nat)
    requires n == Bits.Pow2(k) == |cs| && |bs| == 2 * n && Placed(cs, m, n) && Gathered(cs, m, n)
    requires Filled(bs, r, Flat(cs), ideal, nonideal) && ideal > 0
    ensures |r| == 2 * n && Gathered(r, m, 2 * n) && Expansion(cs, r, n, 2 * n, m) && Balanced(bs, r, ideal, nonideal)
    ensures forall j :: 0 <= j < |r| ==> Within(r[j], m) && GoodChain(r[j], bs[j], j, |r|)
  {
    hide Gathered, Placed, Filled, Flat, Dist, Within, Inside, GoodChain, MultOk, ExcessOf, OldBucket, Bits.Pow2;
    FilledParts(bs, r, Flat(cs), ideal, nonideal);
    SplitChains(cs, m, n, k);
    Regrouped(cs, r, m, n, k);
    FlatWithin(cs, |cs|, m, n);
    assert cs[..|cs|] == cs;
    forall j | 0 <= j < |r| ensures Within(r[j], m) {
      InsideWithin(r[j], Flat(cs), m);
    }
    forall b: nat | b < |cs| ensures Within(cs[b], m) {
      PlacedAt(cs, m, n, b);
      AllIn(cs[b], m);
    }
  }

  lemma AllIn(s: seq<Elem>, m: set<Elem>)
    requires forall e :: e in s ==> e in m
    ensures Within(s, m)
  {
  }

  lemma InsideWithin(s: seq<Elem>, p: seq<Elem>, m: set<Elem>)
    requires Inside(s, p) && Within(p, m)
    ensures Within(s, m)
  {
  }

  lemma ElemsOf(s: seq<Elem>)
    ensures forall e :: e in s <==> e in Elems(s)
  {
  }

  lemma ChainLength(c: seq<Elem>, bkt: Bucket, b: nat, n: nat)
    requires n > 0 && GoodChain(c, bkt, b, n)
    ensures bkt.count == |c|
  {
  }

  lemma SnocElems(s: seq<Elem>, e: Elem)
    ensures Elems(s + [e]) == Elems(s) + {e} && e in s + [e] && |s + [e]| == |s| + 1
    ensures Elems([]) == {}
  {
    assert (s + [e])[|s|] == e;
    assert forall x :: x in s + [e] <==> x in s || x == e;
  }

  lemma AddedTo(s': seq<Elem>, s: seq<Elem>, e: Elem)
    requires Elems(s') == Elems(s) + {e}
    ensures e in s' && forall i {:trigger s'[i]} :: 0 <= i < |s'| ==> s'[i] in s || s'[i] == e
  {
    assert e in Elems(s');
    assert forall i {:trigger s'[i]} :: 0 <= i < |s'| ==> s'[i] in Elems(s');
  }

  lemma RemovedSize(s: seq<Elem>, e: Elem)
    requires NoDup(s) && e in s
    ensures |Removed(s, e)| == |s| - 1
  {
    RemovedAt(s, IndexOf(s, e));
  }

  lemma WithoutSet(s: seq<Elem>, k: nat)
    requires NoDup(s) && k < |s|
    ensures Elems(Without(s, k)) == Elems(s) - {s[k]}
  {
    WithoutElems(s, k);
  }

  lemma ChainNoDup(c: seq<Elem>, bkt: Bucket, b: nat, n: nat)
    requires n > 0 && GoodChain(c, bkt, b, n)
    ensures NoDup(c)
  {
  }

  lemma ChainElems(c: seq<Elem>, m: set<Elem>)
    requires Within(c, m)
    ensures forall e :: e in c ==> e in m
  {
  }

  lemma WithMult(c: seq<Elem>, bkt: Bucket, mult: nat, b: nat, n: nat)
    requires n > 0 && GoodChain(c, bkt, b, n)
    ensures GoodChain(c, bkt.(expandMult := mult), b, n)
  {
  }

  lemma CountGrows(c: seq<Elem>, bkt: Bucket, c': seq<Elem>, bkt': Bucket, add: Elem, b: nat, n: nat)
    requires n > 0 && bkt.count == |c| && GoodChain(c', bkt', b, n) && c' == [add] + c
    ensures bkt'.count == bkt.count + 1
  {
  }

  // ---------- Deleting while iterating ----------

  /** What is left when every element that `drop` selects is deleted. */
  function Kept(drop: Elem -> bool, s: seq<Elem>): seq<Elem> {
    if s == [] then []
    else Kept(drop, s[..|s| - 1]) + (if drop(s[|s| - 1]) then [] else [s[|s| - 1]])
  }

  lemma KeptNone(drop: Elem -> bool, s: seq<Elem>)
    ensures Kept(drop, s[..0]) + s[0..] == s && s[..0] == []
  {
  }

  lemma KeptAll(drop: Elem -> bool, s: seq<Elem>)
    ensures Kept(drop, s[..|s|]) + s[|s|..] == Kept(drop, s) && s[..|s|] == s
  {
    assert s[..|s|] == s;
  }

  /** What is left are exactly the elements that are not selected. */
  lemma {:induction false} KeptElems(drop: Elem -> bool, s: seq<Elem>)
    ensures forall e :: e in Kept(drop, s) <==> e in s && !drop(e)
    decreases |s|
  {
    if s != [] {
      var n := |s| - 1;
      KeptElems(drop, s[..n]);
      assert s == s[..n] + [s[n]];
    }
  }

  /** `t` has the elements of `s` at the positions `at`, in order. */
  ghost predicate Picks(s: seq<Elem>, t: seq<Elem>, at: seq<nat>) {
    && |at| == |t| && (forall i :: 0 <= i < |at| ==> at[i] < |s| && t[i] == s[at[i]])
    && forall i, j :: 0 <= i < j < |at| ==> at[i] < at[j]
  }

  /** They are in their old order: `at` lists their old positions. */
  lemma {:induction false} KeptOrder(drop: Elem -> bool, s: seq<Elem>) returns (at: seq<nat>)
    ensures Picks(s, Kept(drop, s), at)
    ensures forall k :: 0 <= k < |s| && !drop(s[k]) ==> k in at
    decreases |s|
  {
    at := [];
    if s != [] {
      var n := |s| - 1;
      var at' := KeptOrder(drop, s[..n]);
      at := if drop(s[n]) then at' else at' + [n];
      PicksSnoc(s, Kept(drop, s[..n]), at');
      hide Picks;
      OrderSnoc(drop, s, at');
    }
  }

  lemma PicksSnoc(s: seq<Elem>, t: seq<Elem>, at: seq<nat>)
    requires s != [] && Picks(s[..|s| - 1], t, at)
    ensures Picks(s, t, at) && Picks(s, t + [s[|s| - 1]], at + [|s| - 1])
  {
  }

  lemma OrderSnoc(drop: Elem -> bool, s: seq<Elem>, at: seq<nat>)
    requires s != [] && |at| == |Kept(drop, s[..|s| - 1])|
    requires forall k :: 0 <= k < |s| - 1 && !drop(s[..|s| - 1][k]) ==> k in at
    ensures drop(s[|s| - 1]) ==> Kept(drop, s) == Kept(drop, s[..|s| - 1])
    ensures !drop(s[|s| - 1]) ==> Kept(drop, s) == Kept(drop, s[..|s| - 1]) + [s[|s| - 1]]
    ensures forall k :: 0 <= k < |s| && !drop(s[k]) ==> k in if drop(s[|s| - 1]) then at else at + [|s| - 1]
  {
    var n := |s| - 1;
    forall k | 0 <= k < |s| && !drop(s[k]) ensures k in if drop(s[n]) then at else at + [n] {
      if k < n {
        assert s[..n][k] == s[k];
      } else {
        assert (at + [n])[|at|] == n;
      }
    }
  }

  lemma {:induction false} KeptInside(drop: Elem -> bool, s: seq<Elem>)
    ensures Inside(Kept(drop, s), s)
    decreases |s|
  {
    if s != [] {
      KeptInside(drop, s[..|s| - 1]);
    }
  }

  lemma {:induction false} RemovedBehind(a: seq<Elem>, e: Elem, b: seq<Elem>)
    requires e !in a
    ensures Removed(a + [e] + b, e) == a + b
    decreases |a|
  {
    var s := a + [e] + b;
    if a == [] {
      assert s[1..] == b;
      assert a + b == b;
    } else {
      assert s[1..] == a[1..] + [e] + b;
      RemovedBehind(a[1..], e, b);
      assert [a[0]] + (a[1..] + b) == a + b;
    }
  }

  lemma KeptStep(drop: Elem -> bool, s: seq<Elem>, k: nat)
    requires NoDup(s) && k < |s|
    ensures var all := Kept(drop, s[..k]) + s[k..];
      && s[k] in all
      && Kept(drop, s[..k + 1]) + s[k + 1..] == if drop(s[k]) then Removed(all, s[k]) else all
  {
    var a, b := Kept(drop, s[..k]), s[k + 1..];
    hide Removed;
    assert s[..k + 1][..k] == s[..k];
    assert Kept(drop, s[..k]) + s[k..] == a + [s[k]] + b;
    KeptInside(drop, s[..k]);
    assert s[k] !in a;
    RemovedBehind(a, s[k], b);
  }

  lemma ItemsWithin(a: seq<Elem>, s: seq<Elem>)
    requires Inside(a, s)
    ensures forall i {:trigger a[i]} :: 0 <= i < |a| ==> a[i] in s
  {
  }

  lemma KeptRest(drop: Elem -> bool, s: seq<Elem>, k: nat)
    requires k <= |s|
    ensures Inside(Kept(drop, s[..k]) + s[k..], s)
  {
    hide Kept;
    KeptInside(drop, s[..k]);
  }

  lemma TakeSnoc(s: seq<Elem>, k: nat)
    requires k < |s|
    ensures s[..k + 1] == s[..k] + [s[k]]
  {
  }

  // ---------- Counting elements ----------

  lemma NoDupConcat(a: seq<Elem>, b: seq<Elem>)
    requires NoDup(a) && NoDup(b) && forall e :: e in b ==> e !in a
    ensures NoDup(a + b)
  {
    var s := a + b;
    forall i, j | 0 <= i < j < |s| ensures s[i] != s[j] {
      if i < |a| <= j {
        assert b[j - |a|] in b;
      }
    }
  }

  lemma {:induction false} FlatNoDup(cs: seq<seq<Elem>>, m: set<Elem>, n: nat, i: nat)
    requires i <= |cs| == n && n > 0 && Placed(cs, m, n)
    ensures NoDup(Flat(cs[..i]))
    decreases i
  {
    hide Placed, Flat, ToBkt;
    if i == 0 {
      FlatNone(cs);
    } else {
      FlatNoDup(cs, m, n, i - 1);
      FlatDisjoint(cs, i - 1, m, n);
      FlatSnoc(cs, i - 1);
      NoDupConcat(Flat(cs[..i - 1]), cs[i - 1]);
    }
  }

  lemma FlatAll(cs: seq<seq<Elem>>, m: set<Elem>, n: nat)
    requires n > 0 && Gathered(cs, m, n)
    ensures forall e :: e in m ==> e in Flat(cs)
  {
    hide Flat, ToBkt;
    forall e | e in m ensures e in Flat(cs) {
      FlatMember(cs, ToBkt(e.hashv, n), e);
    }
  }

  lemma {:induction false} SizeOfElems(s: seq<Elem>)
    requires NoDup(s)
    ensures |Elems(s)| == |s|
    decreases |s|
  {
    if s == [] {
      assert Elems(s) == {};
    } else {
      var k := |s| - 1;
      SizeOfElems(s[..k]);
      assert Elems(s) == Elems(s[..k]) + {s[k]};
      assert s[k] !in s[..k];
    }
  }

  lemma SameLength(a: seq<Elem>, b: seq<Elem>)
    requires NoDup(a) && NoDup(b) && Within(a, Elems(b)) && forall e :: e in Elems(b) ==> e in a
    ensures |a| == |b|
  {
    SizeOfElems(a);
    SizeOfElems(b);
    assert Elems(a) == Elems(b);
  }
}
