/** The memory functions on a flat memory, and what page-sized chunks make of them. */
module FlatOps {
  import Bits
  import opened Addresses
  import opened ByteSeqs
  import opened Modular

  // ---------- Moving ----------

  /** `n` bytes move from `s` to `d`, as if through a copy. */
  function Move(m: seq<Byte>, d: nat, s: nat, n: nat): (r: seq<Byte>)
    requires d + n <= |m| && s + n <= |m|
    ensures |r| == |m|
  {
    Splice(m, d, m[s..s + n])
  }

  /** The bytes from an address to the end of its page. */
  function Left(a: nat, bits: nat): (k: nat)
    ensures 0 < k <= Bits.Pow2(bits) && k == Bits.Pow2(bits) - OffsetOf(a, bits)
  {
    Parts(a, bits);
    Bits.Pow2(bits) - OffsetOf(a, bits)
  }

  /** The length of the next chunk: both ranges stay in their page. */
  function Chunk(d: nat, s: nat, n: nat, bits: nat): (c: nat)
    ensures c <= n && (n > 0 ==> c > 0) && c <= Left(d, bits) && c <= Left(s, bits)
    ensures c == n || c == Left(d, bits) || c == Left(s, bits)
  {
    Min(n, Min(Left(d, bits), Left(s, bits)))
  }

  /** Moving chunk by chunk, lowest addresses first. */
  function Forward(m: seq<Byte>, d: nat, s: nat, n: nat, bits: nat): (r: seq<Byte>)
    requires d + n <= |m| && s + n <= |m|
    ensures |r| == |m|
    decreases n
  {
    if n == 0 then m
    else
      var c := Chunk(d, s, n, bits);
      Forward(Move(m, d, s, c), d + c, s + c, n - c, bits)
  }

  lemma ForwardStep(m: seq<Byte>, d: nat, s: nat, n: nat, bits: nat)
    requires d + n <= |m| && s + n <= |m|
    ensures n == 0 ==> Forward(m, d, s, n, bits) == m
    ensures n > 0 ==>
      var c := Chunk(d, s, n, bits);
      Forward(m, d, s, n, bits) == Forward(Move(m, d, s, c), d + c, s + c, n - c, bits)
  {
    hide Chunk, Move;
  }

  lemma MoveAt(m: seq<Byte>, d: nat, s: nat, n: nat, i: nat)
    requires d + n <= |m| && s + n <= |m| && i < |m|
    ensures Move(m, d, s, n)[i] == if d <= i < d + n then m[s + (i - d)] else m[i]
  {
  }

  /** Chunks reach only the destination, from its start on. */
  lemma {:induction false} ForwardBelow(m: seq<Byte>, d: nat, s: nat, n: nat, bits: nat, i: nat)
    requires d + n <= |m| && s + n <= |m| && i < d
    ensures Forward(m, d, s, n, bits)[i] == m[i]
    decreases n
  {
    hide Move, Forward, Chunk;
    ForwardStep(m, d, s, n, bits);
    if n > 0 {
      var c := Chunk(d, s, n, bits);
      MoveAt(m, d, s, c, i);
      ForwardBelow(Move(m, d, s, c), d + c, s + c, n - c, bits, i);
    }
  }

  /** A source byte below the destination is moved as it is. */
  lemma {:induction false} ForwardReads(m: seq<Byte>, d: nat, s: nat, n: nat, bits: nat, z: nat)
    requires d + n <= |m| && s + n <= |m| && s <= z < s + n && z < d
    ensures Forward(m, d, s, n, bits)[d + (z - s)] == m[z]
    decreases n
  {
    hide Move, Forward, Chunk;
    ForwardStep(m, d, s, n, bits);
    var c := Chunk(d, s, n, bits);
    var m' := Move(m, d, s, c);
    MoveAt(m, d, s, c, z);
    MoveAt(m, d, s, c, d + (z - s));
    if z < s + c {
      ForwardBelow(m', d + c, s + c, n - c, bits, d + (z - s));
    } else {
      ForwardReads(m', d + c, s + c, n - c, bits, z);
    }
  }

  lemma MoveIs(m: seq<Byte>, d: nat, s: nat, n: nat)
    requires d + n <= |m| && s + n <= |m|
    ensures Move(m, d, s, n) == Splice(m, d, m[s..s + n])
  {
  }

  /** A chunk that the rest does not read back is the first part of the move. */
  lemma MoveInParts(m: seq<Byte>, d: nat, s: nat, c: nat, n: nat)
    requires d + n <= |m| && s + n <= |m| && c <= n && (d <= s || s + n <= d || c == n)
    ensures Move(Move(m, d, s, c), d + c, s + c, n - c) == Move(m, d, s, n)
  {
    hide Move, Splice;
    var x, m' := m[s..s + c], Move(m, d, s, c);
    MoveIs(m, d, s, c);
    MoveIs(m', d + c, s + c, n - c);
    MoveIs(m, d, s, n);
    SplitSlice(m, s, c, n - c);
    if c < n {
      SpliceApart(m, d, x, s + c, n - c);
    } else {
      assert m'[s + c..s + n] == m[s + c..s + n] == [];
    }
    SpliceTwiceAt(m, d, x, d + c, m[s + c..s + n], m[s..s + n]);
  }

  lemma {:induction false} ForwardIsMove(m: seq<Byte>, d: nat, s: nat, n: nat, bits: nat)
    requires d + n <= |m| && s + n <= |m|
    requires d <= s || s + n <= d || n <= Chunk(d, s, n, bits)
    ensures Forward(m, d, s, n, bits) == Move(m, d, s, n)
    decreases n
  {
    hide Move, Forward, Chunk;
    ForwardStep(m, d, s, n, bits);
    if n == 0 {
      MoveNothing(m, d, s);
    } else {
      var c := Chunk(d, s, n, bits);
      if c == n {
        ForwardStep(Move(m, d, s, n), d + n, s + n, 0, bits);
      } else {
        ForwardIsMove(Move(m, d, s, c), d + c, s + c, n - c, bits);
        MoveInParts(m, d, s, c, n);
      }
    }
  }

  lemma MoveNothing(m: seq<Byte>, d: nat, s: nat)
    requires d <= |m| && s <= |m|
    ensures Move(m, d, s, 0) == m
  {
  }

  /** A memory on which an overlapping move upwards goes wrong when it takes more than one chunk. */
  lemma ForwardFails(size: nat, d: nat, s: nat, n: nat, bits: nat) returns (m: seq<Byte>)
    requires d + n <= size && s < d < s + n && Chunk(d, s, n, bits) < n
    ensures |m| == size && Forward(m, d, s, n, bits) != Move(m, d, s, n)
  {
    hide Move, Forward, Chunk;
    var c := Chunk(d, s, n, bits);
    var x := if s + c < d then d else s + c;
    m := Single(size, x);
    ForwardStep(m, d, s, n, bits);
    var m' := Move(m, d, s, c);
    var at := d + (x - s);
    MoveAt(m, d, s, c, x);
    ForwardReads(m', d + c, s + c, n - c, bits, x);
    MoveAt(m, d, s, n, at);
    assert Forward(m, d, s, n, bits)[at] == 0 && Move(m, d, s, n)[at] == 1;
  }

  /** A memory with a single byte set. */
  function Single(size: nat, x: nat): (m: seq<Byte>)
    requires x < size
    ensures |m| == size && forall i :: 0 <= i < size ==> m[i] == if i == x then 1 else 0
  {
    seq(size, i => if i == x then 1 else 0)
  }

  /** Chunks are as good as one move exactly if the destination is not inside the source range behind
      its start, or one chunk is enough. */
  lemma ForwardExact(size: nat, d: nat, s: nat, n: nat, bits: nat)
    requires d + n <= size && s + n <= size
    ensures (forall m: seq<Byte> :: |m| == size ==> Forward(m, d, s, n, bits) == Move(m, d, s, n)) <==>
      (d <= s || s + n <= d || n <= Chunk(d, s, n, bits))
  {
    hide Move, Forward, Chunk;
    if d <= s || s + n <= d || n <= Chunk(d, s, n, bits) {
      forall m: seq<Byte> | |m| == size ensures Forward(m, d, s, n, bits) == Move(m, d, s, n) {
        ForwardIsMove(m, d, s, n, bits);
      }
    } else {
      var m := ForwardFails(size, d, s, n, bits);
    }
  }

  // ---------- Comparing ----------

  /** The difference of the first bytes that differ. */
  function Compare(x: seq<Byte>, y: seq<Byte>): int
    requires |x| == |y|
  {
    if x == [] then 0 else if x[0] != y[0] then x[0] - y[0] else Compare(x[1..], y[1..])
  }

  /** A comparison stops at the first position where the ranges differ. */
  lemma {:induction false} CompareMeans(x: seq<Byte>, y: seq<Byte>) returns (i: nat)
    requires |x| == |y|
    ensures i <= |x| && x[..i] == y[..i]
    ensures i == |x| ==> x == y && Compare(x, y) == 0
    ensures i < |x| ==> x[i] != y[i] && Compare(x, y) + y[i] == x[i]
    decreases |x|
  {
    if x == [] || x[0] != y[0] {
      i := 0;
    } else {
      var k := CompareMeans(x[1..], y[1..]);
      i := k + 1;
      assert x[..i] == [x[0]] + x[1..][..k] && y[..i] == [y[0]] + y[1..][..k];
    }
  }

  /** Chunks are compared until two differ. */
  lemma {:induction false} CompareParts(x: seq<Byte>, y: seq<Byte>, c: nat)
    requires |x| == |y| && c <= |x|
    ensures Compare(x, y) == if Compare(x[..c], y[..c]) != 0 then Compare(x[..c], y[..c]) else Compare(x[c..], y[c..])
    decreases c
  {
    if c > 0 {
      CompareParts(x[1..], y[1..], c - 1);
      assert x[..c][1..] == x[1..][..c - 1] && y[..c][1..] == y[1..][..c - 1];
      assert x[1..][c - 1..] == x[c..] && y[1..][c - 1..] == y[c..];
    } else {
      assert x[0..] == x && y[0..] == y;
    }
  }

  lemma CompareEqual(x: seq<Byte>, y: seq<Byte>)
    requires |x| == |y|
    ensures Compare(x, y) == 0 <==> x == y
  {
    var i := CompareMeans(x, y);
  }

  lemma SliceOfSlice(m: seq<Byte>, d: nat, n: nat, a: nat, b: nat)
    requires d + n <= |m| && a <= b <= n
    ensures m[d..d + n][a..b] == m[d + a..d + b]
  {
    var x, y := m[d..d + n][a..b], m[d + a..d + b];
    assert |x| == |y|;
    assert forall i :: 0 <= i < |x| ==> x[i] == m[d + a + i] == y[i];
  }

  /** The same for ranges of two memories. */
  lemma CompareChunk(md: seq<Byte>, ms: seq<Byte>, d: nat, s: nat, done: nat, c: nat, n: nat)
    requires d + n <= |md| && s + n <= |ms| && done + c <= n && md[d..d + done] == ms[s..s + done]
    ensures var r := Compare(md[d + done..d + done + c], ms[s + done..s + done + c]);
      && (r != 0 ==> Compare(md[d..d + n], ms[s..s + n]) == r)
      && (r == 0 ==> md[d..d + done + c] == ms[s..s + done + c])
  {
    hide *;
    SliceOfSlice(md, d, n, 0, done);
    SliceOfSlice(ms, s, n, 0, done);
    SliceOfSlice(md, d, n, done, done + c);
    SliceOfSlice(ms, s, n, done, done + c);
    SliceOfSlice(md, d, n, 0, done + c);
    SliceOfSlice(ms, s, n, 0, done + c);
    CompareGoesOn(md[d..d + n], ms[s..s + n], done, c);
  }

  lemma SliceSlices(x: seq<Byte>, done: nat, c: nat)
    requires done + c <= |x|
    ensures x[done..][..c] == x[done..done + c] && x[..done + c] == x[..done] + x[done..done + c]
  {
  }

  /** Behind an equal part, the next chunk decides, or extends the equal part. */
  lemma CompareGoesOn(x: seq<Byte>, y: seq<Byte>, done: nat, c: nat)
    requires |x| == |y| && done + c <= |x| && x[..done] == y[..done]
    ensures var r := Compare(x[done..done + c], y[done..done + c]);
      && (r != 0 ==> Compare(x, y) == r)
      && (r == 0 ==> x[..done + c] == y[..done + c])
  {
    hide *;
    CompareEqual(x[..done], y[..done]);
    CompareParts(x, y, done);
    CompareParts(x[done..], y[done..], c);
    SliceSlices(x, done, c);
    SliceSlices(y, done, c);
    CompareEqual(x[done..done + c], y[done..done + c]);
  }

  // ---------- Filling and searching ----------

  function Repeat(b: Byte, n: nat): (r: seq<Byte>)
    ensures |r| == n && forall i :: 0 <= i < n ==> r[i] == b
  {
    seq(n, _ => b)
  }

  lemma RepeatSum(b: Byte, j: nat, k: nat)
    ensures Repeat(b, j) + Repeat(b, k) == Repeat(b, j + k)
  {
  }

  /** The first position of a byte, or the length. */
  function FirstOf(m: seq<Byte>, b: Byte): (i: nat)
    ensures i <= |m| && b !in m[..i] && (i < |m| ==> m[i] == b)
  {
    if m == [] then 0
    else if m[0] == b then 0
    else
      var i := FirstOf(m[1..], b);
      assert m[..i + 1] == [m[0]] + m[1..][..i];
      1 + i
  }

  lemma FirstOfUnique(m: seq<Byte>, b: Byte, i: nat)
    requires i <= |m| && b !in m[..i] && (i < |m| ==> m[i] == b)
    ensures FirstOf(m, b) == i
  {
    var j := FirstOf(m, b);
    assert forall k :: 0 <= k < i ==> m[k] == m[..i][k];
    assert forall k :: 0 <= k < j ==> m[k] == m[..j][k];
  }

  lemma Prefixes(m: seq<Byte>, c: nat)
    requires c <= |m|
    ensures m[..c][..c] == m[..c]
    ensures forall i :: 0 <= i <= c ==> m[..c][..i] == m[..i]
    ensures forall j :: 0 <= j <= |m| - c ==> m[..c + j] == m[..c] + m[c..][..j]
  {
  }

  /** The search goes on in the next chunk if it finds nothing in this one. */
  lemma FirstOfParts(m: seq<Byte>, b: Byte, c: nat)
    requires c <= |m|
    ensures FirstOf(m, b) == if FirstOf(m[..c], b) < c then FirstOf(m[..c], b) else c + FirstOf(m[c..], b)
  {
    hide FirstOf;
    Prefixes(m, c);
    var i := FirstOf(m[..c], b);
    if i < c {
      FirstOfUnique(m, b, i);
    } else {
      FirstOfUnique(m, b, c + FirstOf(m[c..], b));
    }
  }
}
