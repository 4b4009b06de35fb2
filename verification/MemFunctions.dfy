/** The memory functions of the runtime: moving, copying, comparing, filling and searching. */
module MemFunctions {
  import opened Wrappers
  import opened ByteSeqs
  import opened FlatOps
  import opened Process
  import opened MemWrappers
  import Modular

  // ---------- The clients ----------

  /** When page-sized chunks do what one move does. */
  predicate ChunksSuffice(same: bool, d: nat, s: nat, n: nat, bits: nat) {
    !same || d <= s || s + n <= d || n <= Chunk(d, s, n, bits)
  }

  /** The bytes from `d` on are the old ones from `s` on, and the others are what they were. */
  ghost predicate Copied(md: seq<Byte>, ms: seq<Byte>, d: nat, s: nat, n: nat, md': seq<Byte>) {
    && d + n <= |md| == |md'| && s + n <= |ms|
    && forall i :: 0 <= i < |md| ==> md'[i] == if d <= i < d + n then ms[s + (i - d)] else md[i]
  }

  lemma CopiedIs(md: seq<Byte>, ms: seq<Byte>, d: nat, s: nat, n: nat, md': seq<Byte>)
    requires Copies(md, ms, d, s, n, md')
    ensures Copied(md, ms, d, s, n, md')
  {
  }

  /** What a copy by chunks means. */
  lemma CopyMeans(fn: Fn, md: seq<Byte>, ms: seq<Byte>, same: bool, d: nat, s: nat, n: nat, bits: nat, md': seq<Byte>, res: int)
    requires RanChunks(fn, md, ms, same, d, s, n, bits, md', res) && fn.Writes()
    ensures same ==> CopiesForward(md, d, s, n, bits, md')
    ensures ChunksSuffice(same, d, s, n, bits) ==> Copied(md, ms, d, s, n, md')
  {
    hide Forward, Splice, Chunk, Copied;
    if ChunksSuffice(same, d, s, n, bits) {
      if same {
        ForwardIsMove(md, d, s, n, bits);
        MoveIs(md, d, s, n);
      }
      CopiedIs(md, ms, d, s, n, md');
    }
  }

  /** Moves bytes; ranges of one store may overlap if the destination comes first. */
  method Memmove(m: Process, dest: Ptr, src: Ptr, n: nat) returns (res: Ptr)
    requires Ready(m, dest, src, Length(dest, src, n))
    modifies m.native, m.s0`cache, m.s0`pages, m.s0.tlb, m.s1`cache, m.s1`pages, m.s1.tlb, m.s2`cache, m.s2`pages, m.s2.tlb
    ensures m.Ok() && res == dest
    ensures forall area :: m.Known(area) && area != dest.Area() ==> m.Mem(area) == old(m.Mem(area))
    ensures var len, d, s := Length(dest, src, n), dest.Off(), src.Off();
      && (ChunksSuffice(SameStore(dest, src), d, s, len, BitsOf(m, dest)) ==>
            Copied(old(m.Mem(dest.Area())), old(m.Mem(src.Area())), d, s, len, m.Mem(dest.Area())))
      && (SameStore(dest, src) ==>
            CopiesForward(old(m.Mem(dest.Area())), d, s, len, BitsOf(m, dest), m.Mem(dest.Area())))
  {
    hide *;
    WritesIs(MemmoveWrapper);
    var r := MemWrapper(m, dest, src, n, MemmoveWrapper);
    CopyMeans(MemmoveWrapper, old(m.Mem(dest.Area())), old(m.Mem(src.Area())), SameStore(dest, src), dest.Off(), src.Off(),
              Length(dest, src, n), BitsOf(m, dest), m.Mem(dest.Area()), r);
    res := dest;
  }

  /** The ranges have no byte in common. */
  predicate Disjoint(dest: Ptr, src: Ptr, n: nat) {
    dest.Area() != src.Area() || dest.Off() + n <= src.Off() || src.Off() + n <= dest.Off()
  }

  lemma DisjointSuffices(m: Process, dest: Ptr, src: Ptr, n: nat)
    requires Disjoint(dest, src, n)
    ensures ChunksSuffice(SameStore(dest, src), dest.Off(), src.Off(), n, BitsOf(m, dest))
  {
    hide Chunk;
  }

  /** Copies bytes between ranges that have none in common. */
  method Memcpy(m: Process, dest: Ptr, src: Ptr, n: nat) returns (res: Ptr)
    requires Ready(m, dest, src, Length(dest, src, n)) && Disjoint(dest, src, Length(dest, src, n))
    modifies m.native, m.s0`cache, m.s0`pages, m.s0.tlb, m.s1`cache, m.s1`pages, m.s1.tlb, m.s2`cache, m.s2`pages, m.s2.tlb
    ensures m.Ok() && res == dest
    ensures forall area :: m.Known(area) && area != dest.Area() ==> m.Mem(area) == old(m.Mem(area))
    ensures Copied(old(m.Mem(dest.Area())), old(m.Mem(src.Area())), dest.Off(), src.Off(), Length(dest, src, n),
                   m.Mem(dest.Area()))
  {
    hide *;
    WritesIs(MemcpyWrapper);
    DisjointSuffices(m, dest, src, Length(dest, src, n));
    var r := MemWrapper(m, dest, src, n, MemcpyWrapper);
    CopyMeans(MemcpyWrapper, old(m.Mem(dest.Area())), old(m.Mem(src.Area())), SameStore(dest, src), dest.Off(), src.Off(),
              Length(dest, src, n), BitsOf(m, dest), m.Mem(dest.Area()), r);
    res := dest;
  }

  /** The two are equal before position `k`, and there the first one has the smaller byte. */
  ghost predicate Smaller(x: seq<Byte>, y: seq<Byte>, k: nat) {
    k < |x| && k < |y| && x[..k] == y[..k] && x[k] < y[k]
  }

  /** `res` tells the order of the ranges: by the first byte that differs. */
  ghost predicate Orders(md: seq<Byte>, ms: seq<Byte>, d: nat, s: nat, n: nat, res: int) {
    && d + n <= |md| && s + n <= |ms|
    && var x, y := md[d..d + n], ms[s..s + n];
    && (res == 0 <==> x == y)
    && (res < 0 <==> exists k: nat :: Smaller(x, y, k))
    && (res > 0 <==> exists k: nat :: Smaller(y, x, k))
  }

  /** Compares two ranges. */
  method Memcmp(m: Process, vl: Ptr, vr: Ptr, n: nat) returns (res: int)
    requires Ready(m, vl, vr, Length(vl, vr, n))
    modifies m.native, m.s0`cache, m.s0`pages, m.s0.tlb, m.s1`cache, m.s1`pages, m.s1.tlb, m.s2`cache, m.s2`pages, m.s2.tlb
    ensures m.Ok() && forall area :: m.Known(area) ==> m.Mem(area) == old(m.Mem(area))
    ensures Orders(old(m.Mem(vl.Area())), old(m.Mem(vr.Area())), vl.Off(), vr.Off(), Length(vl, vr, n), res)
  {
    hide *;
    WritesIs(MemcmpWrapper);
    res := MemWrapper(m, vl, vr, n, MemcmpWrapper);
    ComparisonMeans(old(m.Mem(vl.Area())), old(m.Mem(vr.Area())), SameStore(vl, vr), vl.Off(), vr.Off(), Length(vl, vr, n),
                    BitsOf(m, vl), m.Mem(vl.Area()), res);
  }

  lemma ComparisonMeans(md: seq<Byte>, ms: seq<Byte>, same: bool, d: nat, s: nat, n: nat, bits: nat, md': seq<Byte>, res: int)
    requires RanChunks(MemcmpWrapper, md, ms, same, d, s, n, bits, md', res)
    ensures Orders(md, ms, d, s, n, res)
  {
    CompareOrders(md[d..d + n], ms[s..s + n]);
    hide Smaller;
  }

  lemma CompareOrders(x: seq<Byte>, y: seq<Byte>)
    requires |x| == |y|
    ensures Compare(x, y) == 0 <==> x == y
    ensures Compare(x, y) < 0 <==> exists k: nat :: Smaller(x, y, k)
    ensures Compare(x, y) > 0 <==> exists k: nat :: Smaller(y, x, k)
  {
    var k := CompareMeans(x, y);
    hide Compare;
    if k < |x| {
      assert if x[k] < y[k] then Smaller(x, y, k) else Smaller(y, x, k);
      forall j: nat | Smaller(x, y, j) ensures x[k] < y[k] {
        OnlyFirst(x, y, j, k);
      }
      forall j: nat | Smaller(y, x, j) ensures y[k] < x[k] {
        OnlyFirst(y, x, j, k);
      }
    }
  }

  lemma OnlyFirst(x: seq<Byte>, y: seq<Byte>, j: nat, k: nat)
    requires |x| == |y| && Smaller(x, y, j) && k < |x| && x[..k] == y[..k] && x[k] != y[k]
    ensures j == k
  {
  }

  // ---------- One range ----------

  datatype FnSingle = MemsetWrapper | MemchrWrapper

  function ByteOf(c: int): Byte {
    c % 256
  }

  /** The library function on a linked range within its page. */
  method CallSingle(m: Process, fn: FnSingle, r: Raw, c: int, n: nat, ghost p: Ptr) returns (res: Option<Raw>)
    requires m.Ok() && m.Held(r, p, fn == MemsetWrapper) && m.InChunk(p, n)
    modifies m.native, m.s0`cache, m.s1`cache, m.s2`cache
    ensures m.Ok() && forall r: Raw, q: Ptr, w: bool :: old(m.Held(r, q, w)) == m.Held(r, q, w)
    ensures p.Off() + n <= |old(m.Mem(p.Area()))|
    ensures forall area :: m.Known(area) && !(fn == MemsetWrapper && area == p.Area()) ==> m.Mem(area) == old(m.Mem(area))
    ensures fn == MemsetWrapper ==> m.Mem(p.Area()) == Splice(old(m.Mem(p.Area())), p.Off(), Repeat(ByteOf(c), n))
    ensures fn == MemchrWrapper ==>
      var i := FirstOf(old(m.Mem(p.Area()))[p.Off()..p.Off() + n], ByteOf(c));
      if i < n then res.Some? && m.Held(res.value, p.Plus(i), false) else res == None
  {
    hide *;
    m.HeldForRead(r, p, fn == MemsetWrapper);
    var bs := m.ReadRaw(r, n, p);
    if fn == MemsetWrapper {
      RepeatLength(ByteOf(c), n);
      m.WriteRaw(r, Repeat(ByteOf(c), n), p);
      res := Some(r);
    } else {
      FirstOfBound(bs, ByteOf(c));
      var i := FirstOf(bs, ByteOf(c));
      if i < n {
        InChunkLeft(m, p, n);
        HeldPlus(m, r, p, false, i);
        res := Some(r.Plus(i));
      } else {
        res := None;
      }
    }
  }

  lemma RepeatLength(b: Byte, n: nat)
    ensures |Repeat(b, n)| == n
  {
  }

  lemma FirstOfBound(m: seq<Byte>, b: Byte)
    ensures FirstOf(m, b) <= |m|
  {
  }

  lemma InChunkLeft(m: Process, p: Ptr, n: nat)
    requires m.InChunk(p, n)
    ensures p.Tagged? ==> n <= Left(p.a, m.At(p.k).bits)
  {
  }

  /** What the single-range function has done after `done` bytes. */
  ghost predicate ProgressSingle(m: Process, fn: FnSingle, p: Ptr, c: int, md: seq<Byte>, done: nat)
    requires p.Off() + done <= |md|
    reads m.native, m.s0, m.s1, m.s2
  {
    match fn
    case MemsetWrapper => m.Mem(p.Area()) == Splice(md, p.Off(), Repeat(ByteOf(c), done))
    case MemchrWrapper => m.Mem(p.Area()) == md && FirstOf(md[p.Off()..p.Off() + done], ByteOf(c)) == done
  }

  lemma ProgressSingleIs(m: Process, fn: FnSingle, p: Ptr, c: int, md: seq<Byte>, done: nat)
    requires p.Off() + done <= |md|
    ensures |Repeat(ByteOf(c), done)| == done
    ensures ProgressSingle(m, fn, p, c, md, done) <==>
      if fn == MemsetWrapper then m.Mem(p.Area()) == Splice(md, p.Off(), Repeat(ByteOf(c), done))
      else m.Mem(p.Area()) == md && FirstOf(md[p.Off()..p.Off() + done], ByteOf(c)) == done
  {
  }

  lemma SpliceNothing(md: seq<Byte>, d: nat, b: Byte)
    requires d <= |md|
    ensures |Repeat(b, 0)| == 0 && Splice(md, d, Repeat(b, 0)) == md && FirstOf(md[d..d], b) == 0
  {
  }

  lemma FillStep(md: seq<Byte>, d: nat, b: Byte, done: nat, k: nat)
    requires d + done + k <= |md|
    ensures |Repeat(b, done)| == done && |Repeat(b, k)| == k && |Repeat(b, done + k)| == done + k
    ensures Splice(Splice(md, d, Repeat(b, done)), d + done, Repeat(b, k)) == Splice(md, d, Repeat(b, done + k))
  {
    RepeatSum(b, done, k);
    SpliceTwiceAt(md, d, Repeat(b, done), d + done, Repeat(b, k), Repeat(b, done + k));
  }

  lemma SearchStep(md: seq<Byte>, d: nat, b: Byte, done: nat, k: nat, n: nat)
    requires d + n <= |md| && done + k <= n && FirstOf(md[d..d + done], b) == done
    ensures var i := FirstOf(md[d + done..d + done + k], b);
      && i <= k
      && FirstOf(md[d..d + done + k], b) == done + i
      && (i < k ==> FirstOf(md[d..d + n], b) == done + i)
  {
    hide FirstOf;
    FirstOfBound(md[d + done..d + done + k], b);
    FirstOfParts(md[d..d + done + k], b, done);
    SliceOfSlice(md, d, done + k, 0, done);
    SliceOfSlice(md, d, done + k, done, done + k);
    FirstOfParts(md[d..d + n], b, done + k);
    SliceOfSlice(md, d, n, 0, done + k);
    assert md[d..d + done + k][done..] == md[d + done..d + done + k];
  }

  /** One chunk. */
  method SingleChunk(m: Process, fn: FnSingle, dst0: Raw, c: int, k: nat,
                     ghost p: Ptr, ghost md: seq<Byte>, ghost done: nat, ghost n: nat)
    returns (res: Option<Raw>)
    requires m.Ok() && m.InRange(p, n) && p.Off() + n <= |md| && done + k <= n && k > 0 && k <= m.LeftIn(p.Plus(done))
    requires m.Held(dst0, p.Plus(done), fn == MemsetWrapper) && ProgressSingle(m, fn, p, c, md, done)
    modifies m.native, m.s0`cache, m.s1`cache, m.s2`cache
    ensures m.Ok() && forall r: Raw, q: Ptr, w: bool :: old(m.Held(r, q, w)) == m.Held(r, q, w)
    ensures forall area :: m.Known(area) && !(fn == MemsetWrapper && area == p.Area()) ==> m.Mem(area) == old(m.Mem(area))
    ensures fn == MemsetWrapper || res == None ==> ProgressSingle(m, fn, p, c, md, done + k)
    ensures fn == MemchrWrapper && res.Some? ==>
      var i := FirstOf(md[p.Off()..p.Off() + n], ByteOf(c));
      i < n && m.Held(res.value, p.Plus(i), false)
  {
    hide *;
    InChunkOf(m, p, n, done, k);
    RangeOf(m, p, n, done);
    ProgressSingleIs(m, fn, p, c, md, done);
    if fn == MemsetWrapper {
      FillStep(md, p.Off(), ByteOf(c), done, k);
    } else {
      SearchStep(md, p.Off(), ByteOf(c), done, k, n);
      PlusPlus(p, done, FirstOf(md[p.Off() + done..p.Off() + done + k], ByteOf(c)));
    }
    res := CallSingle(m, fn, dst0, c, k, p.Plus(done));
    ProgressSingleIs(m, fn, p, c, md, done + k);
  }

  /** One round of the loop: a chunk up to the end of the page, or the last one. */
  method RoundSingle(m: Process, fn: FnSingle, dst0: Raw, dstOrig: Ptr, c: int, ctr: nat,
                     ghost p: Ptr, ghost md: seq<Byte>, ghost len: nat)
    returns (res: Option<Raw>, dst0': Raw, dstOrig': Ptr, ctr': nat)
    requires 0 < ctr <= len && m.Ok() && m.InRange(p, len) && p.Off() + len <= |md| && dstOrig == p.Plus(len - ctr)
    requires m.Held(dst0, dstOrig, fn == MemsetWrapper) && ProgressSingle(m, fn, p, c, md, len - ctr)
    modifies m.native, m.s0`cache, m.s0`pages, m.s0.tlb, m.s1`cache, m.s1`pages, m.s1.tlb, m.s2`cache, m.s2`pages, m.s2.tlb
    ensures m.Ok() && ctr' < ctr
    ensures forall area :: m.Known(area) && !(fn == MemsetWrapper && area == p.Area()) ==> m.Mem(area) == old(m.Mem(area))
    ensures fn == MemchrWrapper && res.Some? ==>
      var i := FirstOf(md[p.Off()..p.Off() + len], ByteOf(c));
      i < len && m.Held(res.value, p.Plus(i), false)
    ensures fn == MemsetWrapper || res == None ==> ProgressSingle(m, fn, p, c, md, len - ctr')
    ensures (fn == MemsetWrapper || res == None) && ctr' > 0 ==>
      dstOrig' == p.Plus(len - ctr') && m.Held(dst0', dstOrig', fn == MemsetWrapper)
  {
    hide *;
    ghost var done := len - ctr;
    dst0', dstOrig', ctr' := dst0, dstOrig, 0;
    m.HeldForRead(dst0, dstOrig, fn == MemsetWrapper);
    var leftInDest := LeftInPage(m, dst0, dstOrig);
    LeftPositive(m, dstOrig);
    if ctr > leftInDest {
      res := SingleChunk(m, fn, dst0, c, leftInDest, p, md, done, len);
      if fn == MemchrWrapper && res.Some? {
        return;
      }
      NextInRange(m, p, len, done, leftInDest);
      ProgressSingleIs(m, fn, p, c, md, done + leftInDest);
      dstOrig', ctr' := dstOrig.Plus(leftInDest), ctr - leftInDest;
      dst0' := m.Resolve(dstOrig', fn == MemsetWrapper, InNative(0), p, false);
      ProgressSingleIs(m, fn, p, c, md, done + leftInDest);
    } else {
      res := SingleChunk(m, fn, dst0, c, ctr, p, md, done, len);
    }
  }

  /** Runs a single-range function, chunk by chunk if the range is in a store. */
  method MemWrapperSingle(m: Process, dest: Ptr, c: int, n: nat, fn: FnSingle) returns (res: Option<Raw>)
    requires m.Ok() && m.InRange(dest, Length(dest, dest, n))
    modifies m.native, m.s0`cache, m.s0`pages, m.s0.tlb, m.s1`cache, m.s1`pages, m.s1.tlb, m.s2`cache, m.s2`pages, m.s2.tlb
    ensures m.Ok()
    ensures dest.Off() + Length(dest, dest, n) <= |old(m.Mem(dest.Area()))|
    ensures forall area :: m.Known(area) && !(fn == MemsetWrapper && area == dest.Area()) ==> m.Mem(area) == old(m.Mem(area))
    ensures fn == MemsetWrapper ==>
      m.Mem(dest.Area()) == Splice(old(m.Mem(dest.Area())), dest.Off(), Repeat(ByteOf(c), Length(dest, dest, n)))
    ensures fn == MemchrWrapper ==>
      var len := Length(dest, dest, n);
      var i := FirstOf(old(m.Mem(dest.Area()))[dest.Off()..dest.Off() + len], ByteOf(c));
      if i < len then res.Some? && m.Held(res.value, dest.Plus(i), false) else res == None
  {
    hide *;
    ghost var md, len := m.Mem(dest.Area()), Length(dest, dest, n);
    LengthIs(dest, dest, n);
    RangeOf(m, dest, len, 0);
    PlusPlus(dest, 0, 0);
    if dest.Native? {
      NativeHeld(m, dest, n, fn == MemsetWrapper);
      res := CallSingle(m, fn, InNative(dest.i), c, n, dest);
      return;
    }
    var ctr := EffLen(n);
    var dst0 := m.Resolve(dest, fn == MemsetWrapper, InNative(0), dest, false);
    var dstOrig := dest;
    SpliceNothing(md, dest.Off(), ByteOf(c));
    ProgressSingleIs(m, fn, dest, c, md, 0);
    while ctr > 0
      invariant ctr <= len && m.Ok()
      invariant ctr > 0 ==> dstOrig == dest.Plus(len - ctr) && m.Held(dst0, dstOrig, fn == MemsetWrapper)
      invariant ProgressSingle(m, fn, dest, c, md, len - ctr)
      invariant forall area :: m.Known(area) && !(fn == MemsetWrapper && area == dest.Area()) ==> m.Mem(area) == old(m.Mem(area))
    {
      res, dst0, dstOrig, ctr := RoundSingle(m, fn, dst0, dstOrig, c, ctr, dest, md, len);
      if fn == MemchrWrapper && res.Some? {
        return;
      }
    }
    ProgressSingleIs(m, fn, dest, c, md, len);
    res := None;
  }

  /** The bytes from `d` to `d + n` are `v`, and the others are what they were. */
  ghost predicate Filled(md: seq<Byte>, d: nat, n: nat, v: int, md': seq<Byte>) {
    && d + n <= |md| == |md'|
    && forall i :: 0 <= i < |md| ==> md'[i] == if d <= i < d + n then v else md[i]
  }

  lemma FillMeans(md: seq<Byte>, d: nat, n: nat, c: int, v: int)
    requires d + n <= |md| && 0 <= v < 256 && (c - v) % 256 == 0
    ensures |Repeat(ByteOf(c), n)| == n && Filled(md, d, n, v, Splice(md, d, Repeat(ByteOf(c), n)))
  {
    ByteIs(c, v);
    hide ByteOf;
  }

  lemma ByteIs(c: int, v: int)
    requires 0 <= v < 256 && (c - v) % 256 == 0
    ensures ByteOf(c) == v
  {
    Modular.DivModUnique(c, (c - v) / 256, v, 256);
  }

  /** Fills a range with the byte `v` that `c` is as an unsigned char. */
  method Memset(m: Process, dest: Ptr, c: int, n: nat) returns (res: Ptr)
    requires m.Ok() && m.InRange(dest, Length(dest, dest, n))
    modifies m.native, m.s0`cache, m.s0`pages, m.s0.tlb, m.s1`cache, m.s1`pages, m.s1.tlb, m.s2`cache, m.s2`pages, m.s2.tlb
    ensures m.Ok() && res == dest
    ensures forall area :: m.Known(area) && area != dest.Area() ==> m.Mem(area) == old(m.Mem(area))
    ensures forall v :: 0 <= v < 256 && (c - v) % 256 == 0 ==>
      Filled(old(m.Mem(dest.Area())), dest.Off(), Length(dest, dest, n), v, m.Mem(dest.Area()))
  {
    hide *;
    var _ := MemWrapperSingle(m, dest, c, n, MemsetWrapper);
    forall v | 0 <= v < 256 && (c - v) % 256 == 0
      ensures Filled(old(m.Mem(dest.Area())), dest.Off(), Length(dest, dest, n), v, m.Mem(dest.Area()))
    {
      FillMeans(old(m.Mem(dest.Area())), dest.Off(), Length(dest, dest, n), c, v);
    }
    res := dest;
  }

  /** `res` leads to the first `v` in the range from `p` on, or there is none. */
  ghost predicate Found(m: Process, md: seq<Byte>, p: Ptr, n: nat, v: int, res: Option<Raw>)
    reads m.s0`cache, m.s0.tlb, m.s1`cache, m.s1.tlb, m.s2`cache, m.s2.tlb
  {
    && p.Off() + n <= |md|
    && (res == None ==> forall i :: p.Off() <= i < p.Off() + n ==> md[i] != v)
    && (res.Some? ==>
          exists k: nat :: k < n && md[p.Off() + k] == v && (forall i :: p.Off() <= i < p.Off() + k ==> md[i] != v)
            && m.Held(res.value, p.Plus(k), false))
  }

  lemma FoundMeans(m: Process, md: seq<Byte>, p: Ptr, n: nat, c: int, v: int, res: Option<Raw>)
    requires p.Off() + n <= |md| && 0 <= v < 256 && (c - v) % 256 == 0
    requires var i := FirstOf(md[p.Off()..p.Off() + n], ByteOf(c));
      if i < n then res.Some? && m.Held(res.value, p.Plus(i), false) else res == None
    ensures Found(m, md, p, n, v, res)
  {
    ByteIs(c, v);
    var range := md[p.Off()..p.Off() + n];
    var i := FirstOf(range, v);
    hide m.Held, ByteOf, FirstOf;
    assert v !in range[..i] && (i < n ==> range[i] == v) && i <= n;
    assert forall j :: 0 <= j < i ==> range[..i][j] == md[p.Off() + j];
  }

  /** Finds the first occurrence of the byte `v` that `c` is as an unsigned char. The result can be
      followed as it is: it is linked. */
  method Memchr(m: Process, dest: Ptr, c: int, n: nat) returns (res: Option<Raw>)
    requires m.Ok() && m.InRange(dest, Length(dest, dest, n))
    modifies m.native, m.s0`cache, m.s0`pages, m.s0.tlb, m.s1`cache, m.s1`pages, m.s1.tlb, m.s2`cache, m.s2`pages, m.s2.tlb
    ensures m.Ok() && forall area :: m.Known(area) ==> m.Mem(area) == old(m.Mem(area))
    ensures forall v :: 0 <= v < 256 && (c - v) % 256 == 0 ==>
      Found(m, old(m.Mem(dest.Area())), dest, Length(dest, dest, n), v, res)
  {
    hide *;
    LengthIs(dest, dest, n);
    RangeOf(m, dest, Length(dest, dest, n), 0);
    KnownArea(m, dest, Length(dest, dest, n));
    res := MemWrapperSingle(m, dest, c, n, MemchrWrapper);
    forall v | 0 <= v < 256 && (c - v) % 256 == 0
      ensures Found(m, old(m.Mem(dest.Area())), dest, Length(dest, dest, n), v, res)
    {
      FoundMeans(m, old(m.Mem(dest.Area())), dest, Length(dest, dest, n), c, v, res);
    }
  }
}
