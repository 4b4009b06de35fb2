/** Flat byte memories, and memories cut into pages. */
module ByteSeqs {
  type Byte = b: int | 0 <= b < 256
  type Page = seq<Byte>

  /** Memory `m` after bytes `bs` were written at address `a`. */
  function Splice(m: seq<Byte>, a: nat, bs: seq<Byte>): (r: seq<Byte>)
    requires a + |bs| <= |m|
    ensures |r| == |m|
  {
    m[..a] + bs + m[a + |bs|..]
  }

  lemma SpliceLength(m: seq<Byte>, a: nat, bs: seq<Byte>)
    requires a + |bs| <= |m|
    ensures |Splice(m, a, bs)| == |m|
  {
  }

  lemma SpliceSame(m: seq<Byte>, a: nat, k: nat)
    requires a + k <= |m|
    ensures Splice(m, a, m[a..a + k]) == m
  {
  }

  /** Two adjacent writes are one write. */
  lemma SpliceTwice(m: seq<Byte>, a: nat, x: seq<Byte>, y: seq<Byte>)
    requires a + |x| + |y| <= |m|
    ensures Splice(Splice(m, a, x), a + |x|, y) == Splice(m, a, x + y)
  {
  }

  lemma SpliceTwiceAt(m: seq<Byte>, a: nat, x: seq<Byte>, b: nat, y: seq<Byte>, z: seq<Byte>)
    requires b == a + |x| && b + |y| <= |m| && z == x + y
    ensures Splice(Splice(m, a, x), b, y) == Splice(m, a, z)
  {
    SpliceTwice(m, a, x, y);
  }

  lemma SplitSlice(m: seq<Byte>, a: nat, j: nat, k: nat)
    requires a + j + k <= |m|
    ensures m[a..a + j] + m[a + j..a + j + k] == m[a..a + j + k]
  {
  }

  /** A write leaves the bytes before and behind it. */
  lemma SpliceApart(m: seq<Byte>, a: nat, bs: seq<Byte>, b: nat, k: nat)
    requires a + |bs| <= |m| && b + k <= |m| && (b + k <= a || a + |bs| <= b)
    ensures Splice(m, a, bs)[b..b + k] == m[b..b + k]
  {
  }

  ghost predicate Uniform(pages: seq<Page>, ps: nat) {
    forall p :: 0 <= p < |pages| ==> |pages[p]| == ps
  }

  /** The flat memory that the pages make up. */
  function Join(pages: seq<Page>): seq<Byte> {
    if pages == [] then [] else Join(pages[..|pages| - 1]) + pages[|pages| - 1]
  }

  lemma {:induction false} JoinLength(pages: seq<Page>, ps: nat)
    requires Uniform(pages, ps)
    ensures |Join(pages)| == |pages| * ps
    decreases |pages|
  {
    if pages != [] {
      var k := |pages| - 1;
      JoinLength(pages[..k], ps);
      assert |pages| * ps == k * ps + ps;
    }
  }

  lemma JoinSnoc(pages: seq<Page>, ps: nat)
    requires Uniform(pages, ps) && pages != []
    ensures var n := |pages| - 1;
      && Join(pages) == Join(pages[..n]) + pages[n] && |Join(pages[..n])| == n * ps && |pages[n]| == ps
      && Uniform(pages[..n], ps)
  {
    JoinLength(pages[..|pages| - 1], ps);
  }

  lemma SliceFront(m: seq<Byte>, n: seq<Byte>, a: nat, k: nat)
    requires a + k <= |m|
    ensures (m + n)[a..a + k] == m[a..a + k]
  {
  }

  lemma SliceBack(m: seq<Byte>, n: seq<Byte>, o: nat, k: nat)
    requires o + k <= |n|
    ensures (m + n)[|m| + o..|m| + o + k] == n[o..o + k]
  {
  }

  /** Bytes within a page, seen in the flat memory. */
  lemma {:induction false} JoinSlice(pages: seq<Page>, ps: nat, p: nat, o: nat, k: nat)
    requires Uniform(pages, ps) && p < |pages| && o + k <= |pages[p]|
    ensures p * ps + o + k <= |Join(pages)| && Join(pages)[p * ps + o..p * ps + o + k] == pages[p][o..o + k]
    decreases |pages|
  {
    hide *;
    var n := |pages| - 1;
    JoinSnoc(pages, ps);
    if p < n {
      var front := pages[..n];
      assert front[p] == pages[p];
      JoinSlice(front, ps, p, o, k);
      SliceFront(Join(front), pages[n], p * ps + o, k);
    } else {
      SliceBack(Join(pages[..n]), pages[n], o, k);
    }
  }

  /** A write within a page is a write to the flat memory. */
  lemma {:induction false} JoinSplice(pages: seq<Page>, ps: nat, p: nat, o: nat, bs: seq<Byte>)
    requires Uniform(pages, ps) && p < |pages| && o + |bs| <= |pages[p]|
    ensures p * ps + o + |bs| <= |Join(pages)|
    ensures Join(pages[p := Splice(pages[p], o, bs)]) == Splice(Join(pages), p * ps + o, bs)
    decreases |pages|
  {
    hide *;
    var n := |pages| - 1;
    var front, q := pages[..n], pages[p := Splice(pages[p], o, bs)];
    JoinSnoc(pages, ps);
    UniformUpdate(pages, ps, p, o, bs);
    JoinSnoc(q, ps);
    if p < n {
      assert front[p] == pages[p];
      JoinSplice(front, ps, p, o, bs);
      assert q[..n] == front[p := Splice(front[p], o, bs)];
      SpliceFront(Join(front), pages[n], p * ps + o, bs);
    } else {
      assert q[..n] == front;
      SpliceBack(Join(front), pages[n], o, bs);
    }
  }

  lemma UniformUpdate(pages: seq<Page>, ps: nat, p: nat, o: nat, bs: seq<Byte>)
    requires Uniform(pages, ps) && p < |pages| && o + |bs| <= |pages[p]|
    ensures Uniform(pages[p := Splice(pages[p], o, bs)], ps)
  {
  }

  lemma SpliceFront(m: seq<Byte>, n: seq<Byte>, a: nat, bs: seq<Byte>)
    requires a + |bs| <= |m|
    ensures Splice(m, a, bs) + n == Splice(m + n, a, bs)
  {
  }

  lemma SpliceBack(m: seq<Byte>, n: seq<Byte>, o: nat, bs: seq<Byte>)
    requires o + |bs| <= |n|
    ensures m + Splice(n, o, bs) == Splice(m + n, |m| + o, bs)
  {
  }
}
