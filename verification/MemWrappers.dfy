/** The memory functions over linked pointers: they work page by page, and refine the flat ones. */
module MemWrappers {
  import Bits
  import opened Addresses
  import opened ByteSeqs
  import opened FlatOps
  import Links
  import opened Modular
  import opened Process

  /** The length that a loop over `int ctr = n` works off. */
  function EffLen(n: nat): (len: nat)
    ensures len == if n % 0x1_0000_0000 < 0x8000_0000 then n % 0x1_0000_0000 else 0
    ensures n < 0x8000_0000 ==> len == n
  {
    var ctr := U32(n);
    if ctr < W31 then ctr else 0
  }

  // ---------- Where pointers go within a page ----------

  lemma PlusInPage(a: nat, n: nat, bits: nat)
    requires n < Left(a, bits)
    ensures PageOf(a + n, bits) == PageOf(a, bits) && OffsetOf(a + n, bits) == OffsetOf(a, bits) + n
    ensures Left(a + n, bits) == Left(a, bits) - n
  {
    hide Start, PageOf, OffsetOf, Bits.Pow2;
    Parts(a, bits);
    PartsUnique(PageOf(a, bits), OffsetOf(a, bits) + n, bits);
  }

  lemma PlusToNext(a: nat, bits: nat)
    ensures OffsetOf(a + Left(a, bits), bits) == 0 && Left(a + Left(a, bits), bits) == Bits.Pow2(bits)
    ensures PageOf(a + Left(a, bits), bits) == PageOf(a, bits) + 1
  {
    hide Start, PageOf, OffsetOf, Bits.Pow2;
    Parts(a, bits);
    StartSum(PageOf(a, bits), 1, bits);
    StartOne(bits);
    PartsUnique(PageOf(a, bits) + 1, 0, bits);
  }

  /** A link is good for the rest of its page. */
  lemma HeldPlus(m: Process, r: Raw, p: Ptr, w: bool, n: nat)
    requires m.Held(r, p, w) && (p.Tagged? ==> n < Left(p.a, m.At(p.k).bits))
    ensures m.Held(r.Plus(n), p.Plus(n), w) && (m.Pinned(p.Plus(n)) <==> m.Pinned(p))
    ensures p.Tagged? ==> m.LeftIn(p.Plus(n)) == m.LeftIn(p) - n
  {
    hide Start, PageOf, OffsetOf, Bits.Pow2, Left;
    if p.Tagged? {
      PlusInPage(p.a, n, m.At(p.k).bits);
    }
  }

  // ---------- Both pointers stay good ----------

  /** When the next chunk ends the page of one pointer only, the other stays good: its page is pinned,
      or the page that is linked next is resident. */
  ghost predicate Settled(m: Process, vl: Ptr, vr: Ptr, ctr: nat)
    reads m.s0`pages, m.s1`pages, m.s2`pages, m.s0`cache, m.s1`cache, m.s2`cache
  {
    vl.Tagged? && vr.Tagged? && vl.k == vr.k ==>
      && (m.LeftIn(vl) < m.LeftIn(vr) && m.LeftIn(vl) < ctr ==> m.Pinned(vr))
      && (m.LeftIn(vr) < m.LeftIn(vl) && m.LeftIn(vr) < ctr ==> m.Pinned(vl) || m.Resident(vr.Plus(m.LeftIn(vr))))
  }

  /** The first chunk ends the page of the right range only, and both ranges lie in one store. */
  ghost predicate RightFirst(m: Process, vl: Ptr, vr: Ptr, n: nat) {
    vl.Tagged? && vr.Tagged? && vl.k == vr.k && m.LeftIn(vr) < m.LeftIn(vl) && m.LeftIn(vr) < n
  }

  /** The left range's link outlives the first chunk. It may not if its page is the oldest one in the
      buffer, the right range starts in a page outside it and goes on to a page outside it, and one of
      these two is not resident. */
  ghost predicate Steady(m: Process, vl: Ptr, vr: Ptr, n: nat)
    reads m.s0`pages, m.s1`pages, m.s2`pages, m.s0`cache, m.s1`cache, m.s2`cache
  {
    RightFirst(m, vl, vr, n) ==>
      var s := m.At(vl.k);
      Links.Steady(s.pages, s.cache.frameOf, PageOf(vl.a, s.bits), PageOf(vr.a, s.bits))
  }

  /** Before the first link, what is linked stays good up to the end of the first chunk, whatever frames
      the page cache takes, if and only if the start is steady. */
  lemma SteadyExactly(m: Process, vl: Ptr, vr: Ptr, n: nat, w: bool)
    requires m.Ok() && m.InRange(vl, n) && m.InRange(vr, n) && RightFirst(m, vl, vr, n)
    ensures var s := m.At(vl.k);
      var p, q := PageOf(vl.a, s.bits), PageOf(vr.a, s.bits);
      && PageOf(vr.a + m.LeftIn(vr), s.bits) == q + 1
      && (Steady(m, vl, vr, n) <==>
        forall s1, s2, t, s3 ::
          Links.Chunk(s.State(), p, q, w, s1, s2, t, s3, s.numPages, s.numFrames, Bits.Pow2(s.bits)) ==> Links.Keeps(s1, s3, p, w))
  {
    hide *;
    RightFirstIs(m, vl, vr, n);
    StartState(m, vl, vr, n);
    SteadyIs(m, vl, vr, n);
    var s := m.At(vl.k);
    Links.StaysExactly(s.State(), PageOf(vl.a, s.bits), PageOf(vr.a, s.bits), w, s.numPages, s.numFrames, Bits.Pow2(s.bits));
  }

  lemma RightFirstIs(m: Process, vl: Ptr, vr: Ptr, n: nat)
    ensures RightFirst(m, vl, vr, n) <==>
      vl.Tagged? && vr.Tagged? && vl.k == vr.k && m.LeftIn(vr) < m.LeftIn(vl) && m.LeftIn(vr) < n
  {
  }

  lemma SteadyIs(m: Process, vl: Ptr, vr: Ptr, n: nat)
    requires RightFirst(m, vl, vr, n)
    ensures var s := m.At(vl.k);
      && Steady(m, vl, vr, n) == Links.Steady(s.pages, s.cache.frameOf, PageOf(vl.a, s.bits), PageOf(vr.a, s.bits))
      && s.State().pages == s.pages && s.State().cache == s.cache
  {
  }

  /** The pages that the first three links access. */
  lemma StartState(m: Process, vl: Ptr, vr: Ptr, n: nat)
    requires m.Ok() && m.InRange(vl, n) && m.InRange(vr, n) && RightFirst(m, vl, vr, n)
    ensures var s := m.At(vl.k);
      && Links.Good(s.State(), s.numPages, s.numFrames, Bits.Pow2(s.bits)) && s.numFrames > Links.Tlb.TLB_SIZE
      && PageOf(vl.a, s.bits) < s.numPages && PageOf(vr.a, s.bits) + 1 < s.numPages
      && PageOf(vr.a + m.LeftIn(vr), s.bits) == PageOf(vr.a, s.bits) + 1
  {
    hide *;
    RightFirstParts(m, vl, vr, n);
    var s := m.At(vl.k);
    s.GeometryParts();
    s.StateIs();
    s.SizeIs();
    PageParts(vl.a, s.bits, s.numPages);
    PageParts(vr.a + m.LeftIn(vr), s.bits, s.numPages);
    PlusToNext(vr.a, s.bits);
  }

  lemma RightFirstParts(m: Process, vl: Ptr, vr: Ptr, n: nat)
    requires m.Ok() && m.InRange(vl, n) && m.InRange(vr, n) && RightFirst(m, vl, vr, n)
    ensures vl.Tagged? && vr.Tagged? && vl.k == vr.k && m.LeftIn(vr) == Left(vr.a, m.At(vl.k).bits)
    ensures var s := m.At(vl.k); s.Valid() && s.Geometry() && vl.a < s.Size() && vr.a + m.LeftIn(vr) < s.Size()
  {
    hide Left;
  }

  /** Links both ranges. */
  method LinkRanges(m: Process, vl: Ptr, vr: Ptr, w: bool, ghost n: nat) returns (vl0: Raw, vr0: Raw)
    requires m.Ok() && m.InRange(vl, n) && m.InRange(vr, n) && Steady(m, vl, vr, n)
    modifies m.s0`cache, m.s0`pages, m.s0.tlb, m.s1`cache, m.s1`pages, m.s1.tlb, m.s2`cache, m.s2`pages, m.s2.tlb
    ensures m.Ok() && forall area :: m.Mem(area) == old(m.Mem(area))
    ensures m.Held(vl0, vl, w) && m.Held(vr0, vr, false) && Settled(m, vl, vr, n)
  {
    hide *;
    RangeZero(m, vl, n);
    RangeZero(m, vr, n);
    RightFirstIs(m, vl, vr, n);
    if RightFirst(m, vl, vr, n) {
      StartState(m, vl, vr, n);
      SteadyIs(m, vl, vr, n);
    }
    ghost var k := if vl.Tagged? then vl.k else 0;
    ghost var s := m.At(k).State();
    vl0 := m.Resolve(vl, w, InNative(0), vl, false);
    ghost var s1 := m.At(k).State();
    vr0 := m.Resolve(vr, false, vl0, vl, w);
    if RightFirst(m, vl, vr, n) {
      LeavesSettled(m, vl, vr, n, w, s, s1);
    }
    SettledIs(m, vl, vr, n);
  }

  lemma LeavesSettled(m: Process, vl: Ptr, vr: Ptr, n: nat, w: bool, s: Links.State, s1: Links.State)
    requires RightFirst(m, vl, vr, n)
    requires var st := m.At(vl.k);
      var p, q := PageOf(vl.a, st.bits), PageOf(vr.a, st.bits);
      && Links.Good(s, st.numPages, st.numFrames, Bits.Pow2(st.bits)) && p < st.numPages && q + 1 < st.numPages
      && Links.LinkStep(s, p, w, s1) && Links.LinkStep(s1, q, false, st.State())
      && Links.Steady(s.pages, s.cache.frameOf, p, q) && PageOf(vr.a + m.LeftIn(vr), st.bits) == q + 1
    ensures m.Pinned(vl) || m.Resident(vr.Plus(m.LeftIn(vr)))
  {
    hide *;
    RightFirstIs(m, vl, vr, n);
    var st := m.At(vl.k);
    Links.SteadyLeaves(s, PageOf(vl.a, st.bits), PageOf(vr.a, st.bits), w, s1, st.State(),
                       st.numPages, st.numFrames, Bits.Pow2(st.bits));
    st.StateIs();
    m.PinnedIs(vl);
    ResidentIs(m, vr.Plus(m.LeftIn(vr)));
    PlusIs(m, vr, m.LeftIn(vr));
  }

  lemma ResidentIs(m: Process, p: Ptr)
    ensures m.Resident(p) <==> (p.Tagged? ==> PageOf(p.a, m.At(p.k).bits) in m.At(p.k).cache.frameOf)
  {
  }

  lemma SettledIs(m: Process, vl: Ptr, vr: Ptr, ctr: nat)
    ensures Settled(m, vl, vr, ctr) <==> (vl.Tagged? && vr.Tagged? && vl.k == vr.k ==>
      && (m.LeftIn(vl) < m.LeftIn(vr) && m.LeftIn(vl) < ctr ==> m.Pinned(vr))
      && (m.LeftIn(vr) < m.LeftIn(vl) && m.LeftIn(vr) < ctr ==> m.Pinned(vl) || m.Resident(vr.Plus(m.LeftIn(vr)))))
  {
  }

  /** Goes on behind a chunk that ends at least one page: pointers into a new page are linked again. */
  method NextChunk(m: Process, vl: Ptr, vr: Ptr, vl0: Raw, vr0: Raw, w: bool, minLeft: nat, leftL: nat, leftR: nat, ghost ctr: nat)
    returns (vl0': Raw, vr0': Raw)
    requires m.Ok() && m.Held(vl0, vl, w) && m.Held(vr0, vr, false) && Settled(m, vl, vr, ctr)
    requires vl.Tagged? || vr.Tagged?
    requires leftL == m.LeftIn(vl) && leftR == m.LeftIn(vr) && minLeft == Min(leftL, leftR) < ctr
    requires m.InRange(vl.Plus(minLeft), 0) && m.InRange(vr.Plus(minLeft), 0)
    modifies m.s0`cache, m.s0`pages, m.s0.tlb, m.s1`cache, m.s1`pages, m.s1.tlb, m.s2`cache, m.s2`pages, m.s2.tlb
    ensures m.Ok() && forall area :: m.Mem(area) == old(m.Mem(area))
    ensures m.Held(vl0', vl.Plus(minLeft), w) && m.Held(vr0', vr.Plus(minLeft), false)
    ensures Settled(m, vl.Plus(minLeft), vr.Plus(minLeft), ctr - minLeft)
  {
    hide *;
    MinIs(leftL, leftR);
    SettledIs(m, vl, vr, ctr);
    PlusIs(m, vl, minLeft);
    PlusIs(m, vr, minLeft);
    AreaIs(vl.Plus(minLeft), vr.Plus(minLeft));
    Crossing(m, vl, minLeft);
    Crossing(m, vr, minLeft);
    if leftL > minLeft || vl.Native? {
      HeldPlus(m, vl0, vl, w, minLeft);
    }
    if leftR > minLeft || vr.Native? {
      HeldPlus(m, vr0, vr, false, minLeft);
    }
    if minLeft == leftL && vl.Tagged? {
      vl0' := m.Resolve(vl.Plus(minLeft), w, vr0.Plus(minLeft), vr.Plus(minLeft), false);
    } else {
      vl0' := vl0.Plus(minLeft);
    }
    if minLeft == leftR && vr.Tagged? {
      vr0' := m.Resolve(vr.Plus(minLeft), false, vl0', vl.Plus(minLeft), w);
    } else {
      vr0' := vr0.Plus(minLeft);
    }
    SettledIs(m, vl.Plus(minLeft), vr.Plus(minLeft), ctr - minLeft);
  }

  lemma MinIs(a: nat, b: nat)
    ensures Min(a, b) == if a < b then a else b
  {
  }

  lemma PlusIs(m: Process, p: Ptr, n: nat)
    ensures p.Plus(n).Tagged? == p.Tagged? && (p.Tagged? ==> p.Plus(n).k == p.k && p.Plus(n).a == p.a + n)
    ensures p.Tagged? ==> m.LeftIn(p) == Left(p.a, m.At(p.k).bits) <= Bits.Pow2(m.At(p.k).bits)
    ensures p.Tagged? ==> m.LeftIn(p) == Bits.Pow2(m.At(p.k).bits) - OffsetOf(p.a, m.At(p.k).bits)
    ensures p.Native? ==> m.LeftIn(p) == NATIVE_CHUNK == 0x4000_0000
  {
  }

  lemma AreaIs(p: Ptr, q: Ptr)
    ensures p.Area() == q.Area() <==> (p.Native? && q.Native?) || (p.Tagged? && q.Tagged? && p.k == q.k)
  {
  }

  lemma Crossing(m: Process, p: Ptr, n: nat)
    requires p.Tagged? ==> n == m.LeftIn(p) || n < m.LeftIn(p)
    ensures p.Tagged? && n == m.LeftIn(p) ==> m.LeftIn(p.Plus(n)) == Bits.Pow2(m.At(p.k).bits)
    ensures p.Tagged? && n < m.LeftIn(p) ==> m.LeftIn(p.Plus(n)) == m.LeftIn(p) - n
  {
    hide Start, PageOf, OffsetOf, Bits.Pow2, Left;
    if p.Tagged? {
      if n == m.LeftIn(p) {
        PlusToNext(p.a, m.At(p.k).bits);
      } else {
        PlusInPage(p.a, n, m.At(p.k).bits);
      }
    }
  }

  // ---------- One chunk ----------

  datatype Fn = MemcpyWrapper | MemmoveWrapper | MemcmpWrapper {
    /** The left range is written. */
    predicate Writes() {
      !MemcmpWrapper?
    }
  }

  /** What is left in the page of a linked pointer. */
  method LeftInPage(m: Process, r: Raw, ghost p: Ptr) returns (n: nat)
    requires m.Ok() && m.Held(r, p, false)
    ensures n == m.LeftIn(p)
    ensures n == if p.Native? then 0x4000_0000 else Bits.Pow2(m.At(p.k).bits) - OffsetOf(p.a, m.At(p.k).bits)
  {
    hide *;
    m.OkParts();
    m.HeldCases(r, p, false);
    PlusIs(m, p, 0);
    match r
    case InNative(_) =>
      m.HeldKind(r, p);
      n := NATIVE_CHUNK;
    case InFrame(k, addr) =>
      m.HeldKind(r, p);
      m.AtIs(k);
      var store := m.At(k);
      store.HeldIs(addr, p.a, false);
      store.Target(addr, p.a);
      var offset := Bits.And(addr - store.cacheBase, Bits.Pow2(store.bits) - 1);
      LeftIs(p.a, store.bits);
      n := Bits.Pow2(store.bits) - offset;
  }

  lemma LeftIs(a: nat, bits: nat)
    ensures Left(a, bits) == Bits.Pow2(bits) - OffsetOf(a, bits)
  {
  }

  /** One flat copy. */
  ghost predicate Copies(md: seq<Byte>, ms: seq<Byte>, d: nat, s: nat, n: nat, md': seq<Byte>) {
    d + n <= |md| && s + n <= |ms| && md' == Splice(md, d, ms[s..s + n])
  }

  /** One flat comparison. */
  ghost predicate Compares(md: seq<Byte>, ms: seq<Byte>, d: nat, s: nat, n: nat, res: int) {
    d + n <= |md| && s + n <= |ms| && res == Compare(md[d..d + n], ms[s..s + n])
  }

  /** What a library function does. */
  ghost predicate Ran(fn: Fn, md: seq<Byte>, ms: seq<Byte>, d: nat, s: nat, n: nat, md': seq<Byte>, res: int) {
    if fn.Writes() then res == 0 && Copies(md, ms, d, s, n, md')
    else md' == md && Compares(md, ms, d, s, n, res)
  }

  lemma RanIs(fn: Fn, md: seq<Byte>, ms: seq<Byte>, d: nat, s: nat, n: nat, md': seq<Byte>, res: int)
    requires d + n <= |md| && s + n <= |ms|
    ensures Ran(fn, md, ms, d, s, n, md', res) <==>
      if fn.Writes() then res == 0 && md' == Splice(md, d, ms[s..s + n])
      else md' == md && res == Compare(md[d..d + n], ms[s..s + n])
  {
  }

  /** The library function on linked ranges within their pages. */
  method Call(m: Process, fn: Fn, vl0: Raw, vr0: Raw, n: nat, ghost vl: Ptr, ghost vr: Ptr) returns (res: int)
    requires m.Ok() && m.Held(vl0, vl, fn.Writes()) && m.Held(vr0, vr, false) && m.InChunk(vl, n) && m.InChunk(vr, n)
    modifies m.native, m.s0`cache, m.s1`cache, m.s2`cache
    ensures m.Ok() && forall r: Raw, q: Ptr, w: bool :: old(m.Held(r, q, w)) == m.Held(r, q, w)
    ensures forall q: Ptr :: old(m.Resident(q)) == m.Resident(q)
    ensures Ran(fn, old(m.Mem(vl.Area())), old(m.Mem(vr.Area())), vl.Off(), vr.Off(), n, m.Mem(vl.Area()), res)
    ensures forall area :: m.Known(area) && !(fn.Writes() && area == vl.Area()) ==> m.Mem(area) == old(m.Mem(area))
  {
    hide *;
    WritesIs(fn);
    m.HeldForRead(vl0, vl, fn.Writes());
    var y := m.ReadRaw(vr0, n, vr);
    if fn == MemcmpWrapper {
      var x := m.ReadRaw(vl0, n, vl);
      res := Compare(x, y);
    } else {
      ghost var x := m.ReadRaw(vl0, n, vl);
      m.WriteRaw(vl0, y, vl);
      res := 0;
    }
    RanIs(fn, old(m.Mem(vl.Area())), old(m.Mem(vr.Area())), vl.Off(), vr.Off(), n, m.Mem(vl.Area()), res);
  }

  lemma WritesIs(fn: Fn)
    ensures fn.Writes() <==> fn != MemcmpWrapper
  {
  }

  // ---------- Two ranges ----------

  /** A copy within one store, chunk by chunk. */
  ghost predicate CopiesForward(md: seq<Byte>, d: nat, s: nat, n: nat, bits: nat, md': seq<Byte>) {
    d + n <= |md| && s + n <= |md| && md' == Forward(md, d, s, n, bits)
  }

  /** What a two-range function does: a copy within one store goes chunk by chunk. */
  ghost predicate RanChunks(fn: Fn, md: seq<Byte>, ms: seq<Byte>, same: bool, d: nat, s: nat, n: nat, bits: nat,
                          md': seq<Byte>, res: int)
  {
    && (same ==> ms == md)
    && (if fn.Writes() && same then res == 0 && CopiesForward(md, d, s, n, bits, md') else Ran(fn, md, ms, d, s, n, md', res))
  }

  /** The memories after `done` bytes: copying leads to its result, comparing has seen no difference. */
  ghost predicate Midway(w: bool, cur: seq<Byte>, src: seq<Byte>, md: seq<Byte>, ms: seq<Byte>, same: bool,
                         d: nat, s: nat, done: nat, n: nat, bits: nat)
  {
    && d + n <= |md| && s + n <= |ms| && done <= n && |cur| == |md|
    && (if same then ms == md && src == cur else src == ms)
    && (if !w then cur == md && md[d..d + done] == ms[s..s + done]
        else if same then Forward(cur, d + done, s + done, n - done, bits) == Forward(md, d, s, n, bits)
        else cur == Splice(md, d, ms[s..s + done]))
  }

  lemma MidwayStarts(w: bool, md: seq<Byte>, ms: seq<Byte>, same: bool, d: nat, s: nat, n: nat, bits: nat)
    requires d + n <= |md| && s + n <= |ms| && (same ==> ms == md)
    ensures Midway(w, md, ms, md, ms, same, d, s, 0, n, bits)
  {
    assert md[d..d] == ms[s..s];
  }

  lemma MidwayEnds(fn: Fn, cur: seq<Byte>, src: seq<Byte>, md: seq<Byte>, ms: seq<Byte>, same: bool,
                   d: nat, s: nat, n: nat, bits: nat)
    requires Midway(fn.Writes(), cur, src, md, ms, same, d, s, n, n, bits)
    ensures RanChunks(fn, md, ms, same, d, s, n, bits, cur, 0)
  {
    if fn.Writes() && same {
      ForwardStep(cur, d + n, s + n, 0, bits);
    } else if !fn.Writes() {
      CompareEqual(md[d..d + n], ms[s..s + n]);
    }
  }

  lemma MidwayForward(cur: seq<Byte>, md: seq<Byte>, d: nat, s: nat, done: nat, n: nat, bits: nat)
    requires d + n <= |md| == |cur| && s + n <= |md| && done <= n
    ensures Midway(true, cur, cur, md, md, true, d, s, done, n, bits) <==>
      Forward(cur, d + done, s + done, n - done, bits) == Forward(md, d, s, n, bits)
  {
  }

  lemma ForwardOn(cur: seq<Byte>, cur': seq<Byte>, d: nat, s: nat, n: nat, c: nat, bits: nat)
    requires s + n <= |cur| && d + n <= |cur| && 0 < c <= n && c == Chunk(d, s, n, bits) && Copies(cur, cur, d, s, c, cur')
    ensures |cur'| == |cur| && Forward(cur', d + c, s + c, n - c, bits) == Forward(cur, d, s, n, bits)
  {
    hide Forward, Chunk, Move, Splice;
    ForwardStep(cur, d, s, n, bits);
    MoveIs(cur, d, s, c);
  }

  /** A chunk of a copy within one store. */
  lemma ForwardChunk(cur: seq<Byte>, cur': seq<Byte>, md: seq<Byte>, d: nat, s: nat, done: nat, c: nat, n: nat, bits: nat)
    requires Midway(true, cur, cur, md, md, true, d, s, done, n, bits) && done + c <= n && c > 0
    requires c == Chunk(d + done, s + done, n - done, bits) && Copies(cur, cur, d + done, s + done, c, cur')
    ensures Midway(true, cur', cur', md, md, true, d, s, done + c, n, bits)
  {
    hide *;
    MidwayParts(true, cur, cur, md, md, true, d, s, done, n, bits);
    MidwayForward(cur, md, d, s, done, n, bits);
    ForwardOn(cur, cur', d + done, s + done, n - done, c, bits);
    MidwayForward(cur', md, d, s, done + c, n, bits);
  }

  /** A chunk of a copy between two areas. */
  lemma CopyChunk(cur: seq<Byte>, cur': seq<Byte>, md: seq<Byte>, ms: seq<Byte>, d: nat, s: nat, done: nat, c: nat, n: nat, bits: nat)
    requires Midway(true, cur, ms, md, ms, false, d, s, done, n, bits) && done + c <= n
    requires Copies(cur, ms, d + done, s + done, c, cur')
    ensures Midway(true, cur', ms, md, ms, false, d, s, done + c, n, bits)
  {
    hide Splice, Chunk, Forward, Move;
    SplitSlice(ms, s, done, c);
    SpliceTwiceAt(md, d, ms[s..s + done], d + done, ms[s + done..s + done + c], ms[s..s + done + c]);
    SpliceLength(cur, d + done, ms[s + done..s + done + c]);
  }

  /** One chunk of a comparison decides it, or makes progress. */
  lemma ChunkCompared(src: seq<Byte>, md: seq<Byte>, ms: seq<Byte>, same: bool, d: nat, s: nat, done: nat, c: nat, n: nat,
                      bits: nat, res: int)
    requires Midway(false, md, src, md, ms, same, d, s, done, n, bits) && done + c <= n
    requires Compares(md, ms, d + done, s + done, c, res)
    ensures res == 0 ==> Midway(false, md, src, md, ms, same, d, s, done + c, n, bits)
    ensures res != 0 ==> Compares(md, ms, d, s, n, res)
  {
    hide Compare;
    CompareChunk(md, ms, d, s, done, c, n);
  }

  /** A chunk makes progress, or decides a comparison. */
  lemma MidwayStep(fn: Fn, cur: seq<Byte>, src: seq<Byte>, md: seq<Byte>, ms: seq<Byte>, same: bool,
                   d: nat, s: nat, done: nat, c: nat, n: nat, bits: nat, cur': seq<Byte>, src': seq<Byte>, res: int)
    requires Midway(fn.Writes(), cur, src, md, ms, same, d, s, done, n, bits) && done + c <= n && c > 0
    requires Ran(fn, cur, src, d + done, s + done, c, cur', res) && src' == (if same then cur' else src)
    requires same ==> c == Chunk(d + done, s + done, n - done, bits)
    ensures res == 0 ==> Midway(fn.Writes(), cur', src', md, ms, same, d, s, done + c, n, bits)
    ensures fn.Writes() ==> res == 0
    ensures res != 0 ==> cur' == md && Compares(md, ms, d, s, n, res)
  {
    MidwayParts(fn.Writes(), cur, src, md, ms, same, d, s, done, n, bits);
    hide Midway, Chunk, Compares, Copies;
    if !fn.Writes() {
      ChunkCompared(src, md, ms, same, d, s, done, c, n, bits, res);
    } else if same {
      ForwardChunk(cur, cur', md, d, s, done, c, n, bits);
    } else {
      CopyChunk(cur, cur', md, ms, d, s, done, c, n, bits);
    }
  }

  lemma MidwayParts(w: bool, cur: seq<Byte>, src: seq<Byte>, md: seq<Byte>, ms: seq<Byte>, same: bool,
                    d: nat, s: nat, done: nat, n: nat, bits: nat)
    requires Midway(w, cur, src, md, ms, same, d, s, done, n, bits)
    ensures (if same then ms == md && src == cur else src == ms) && (!w ==> cur == md)
    ensures d + n <= |md| == |cur| && s + n <= |ms| == |src|
  {
  }

  /** Both ranges lie in the same store. */
  ghost predicate SameStore(vl: Ptr, vr: Ptr) {
    vl.Tagged? && vr.Tagged? && vl.k == vr.k
  }

  ghost function BitsOf(m: Process, p: Ptr): nat {
    if p.Tagged? then m.At(p.k).bits else 0
  }

  /** The number of bytes that the functions work on. */
  function Length(vl: Ptr, vr: Ptr, n: nat): (len: nat)
    ensures vl.Native? && vr.Native? ==> len == n
    ensures vl.Tagged? || vr.Tagged? ==> len == if n % 0x1_0000_0000 < 0x8000_0000 then n % 0x1_0000_0000 else 0
  {
    if vl.Tagged? || vr.Tagged? then EffLen(n) else n
  }

  ghost predicate Ready(m: Process, vl: Ptr, vr: Ptr, n: nat)
    reads m.s0, m.s0.tlb, m.s1, m.s1.tlb, m.s2, m.s2.tlb
  {
    m.Ok() && m.InRange(vl, n) && m.InRange(vr, n) && Steady(m, vl, vr, n)
  }

  lemma RangeOf(m: Process, p: Ptr, n: nat, k: nat)
    requires m.Ok() && m.InRange(p, n) && k <= n
    ensures p.Off() + n <= |m.Mem(p.Area())| && m.Known(p.Area()) && m.InRange(p, k)
    ensures k < n ==> m.InRange(p.Plus(k), n - k)
    ensures p.Plus(k).Off() == p.Off() + k && p.Plus(k).Area() == p.Area()
  {
    hide m.s0.Valid, Start;
    if p.Tagged? {
      m.At(p.k).MemSize();
    }
  }

  /** The memories while a function runs. */
  ghost predicate Progress(m: Process, w: bool, vl: Ptr, vr: Ptr, md: seq<Byte>, ms: seq<Byte>, done: nat, n: nat)
    reads m.native, m.s0, m.s1, m.s2
  {
    Midway(w, m.Mem(vl.Area()), m.Mem(vr.Area()), md, ms, SameStore(vl, vr), vl.Off(), vr.Off(), done, n, BitsOf(m, vl))
  }

  lemma ProgressIs(m: Process, w: bool, vl: Ptr, vr: Ptr, md: seq<Byte>, ms: seq<Byte>, done: nat, n: nat)
    ensures Progress(m, w, vl, vr, md, ms, done, n) <==>
      Midway(w, m.Mem(vl.Area()), m.Mem(vr.Area()), md, ms, SameStore(vl, vr), vl.Off(), vr.Off(), done, n, BitsOf(m, vl))
  {
  }

  lemma ChunkIs(m: Process, vl: Ptr, vr: Ptr, done: nat, c: nat, n: nat)
    requires done <= n && c == Min(n - done, Min(m.LeftIn(vl.Plus(done)), m.LeftIn(vr.Plus(done))))
    ensures SameStore(vl, vr) ==> c == Chunk(vl.Off() + done, vr.Off() + done, n - done, BitsOf(m, vl))
  {
    hide Left;
  }

  lemma InChunkOf(m: Process, p: Ptr, n: nat, done: nat, c: nat)
    requires m.Ok() && m.InRange(p, n) && done + c <= n && c > 0 && c <= m.LeftIn(p.Plus(done))
    ensures m.InChunk(p.Plus(done), c)
  {
    hide Left, Start;
  }

  /** The library function on the next chunk. */
  method CallChunk(m: Process, fn: Fn, vl0: Raw, vr0: Raw, c: nat,
                   ghost vl: Ptr, ghost vr: Ptr, ghost md: seq<Byte>, ghost ms: seq<Byte>, ghost done: nat, ghost n: nat)
    returns (res: int)
    requires m.Ok() && m.InRange(vl, n) && m.InRange(vr, n) && (vl.Tagged? || vr.Tagged?)
    requires done + c <= n && Progress(m, fn.Writes(), vl, vr, md, ms, done, n)
    requires c > 0 && c == Min(n - done, Min(m.LeftIn(vl.Plus(done)), m.LeftIn(vr.Plus(done))))
    requires m.Held(vl0, vl.Plus(done), fn.Writes()) && m.Held(vr0, vr.Plus(done), false)
    modifies m.native, m.s0`cache, m.s1`cache, m.s2`cache
    ensures m.Ok() && forall r: Raw, q: Ptr, w: bool :: old(m.Held(r, q, w)) == m.Held(r, q, w)
    ensures forall q: Ptr :: old(m.Resident(q)) == m.Resident(q)
    ensures forall area :: m.Known(area) && !(fn.Writes() && area == vl.Area()) ==> m.Mem(area) == old(m.Mem(area))
    ensures fn.Writes() ==> res == 0
    ensures res == 0 ==> Progress(m, fn.Writes(), vl, vr, md, ms, done + c, n)
    ensures res != 0 ==> m.Mem(vl.Area()) == md && Compares(md, ms, vl.Off(), vr.Off(), n, res)
  {
    hide *;
    MinIs(m.LeftIn(vl.Plus(done)), m.LeftIn(vr.Plus(done)));
    MinIs(n - done, Min(m.LeftIn(vl.Plus(done)), m.LeftIn(vr.Plus(done))));
    ChunkIs(m, vl, vr, done, c, n);
    InChunkOf(m, vl, n, done, c);
    InChunkOf(m, vr, n, done, c);
    RangeOf(m, vl, n, done);
    RangeOf(m, vr, n, done);
    ProgressIs(m, fn.Writes(), vl, vr, md, ms, done, n);
    SameStoreArea(vl, vr);
    ghost var cur, src := m.Mem(vl.Area()), m.Mem(vr.Area());
    MidwayParts(fn.Writes(), cur, src, md, ms, SameStore(vl, vr), vl.Off(), vr.Off(), done, n, BitsOf(m, vl));
    res := Call(m, fn, vl0, vr0, c, vl.Plus(done), vr.Plus(done));
    MidwayStep(fn, cur, src, md, ms, SameStore(vl, vr), vl.Off(), vr.Off(), done, c, n, BitsOf(m, vl),
               m.Mem(vl.Area()), m.Mem(vr.Area()), res);
    ProgressIs(m, fn.Writes(), vl, vr, md, ms, done + c, n);
  }

  lemma SameStoreArea(vl: Ptr, vr: Ptr)
    ensures SameStore(vl, vr) ==> vl.Area() == vr.Area()
    ensures (vl.Tagged? || vr.Tagged?) && !SameStore(vl, vr) ==> vl.Area() != vr.Area()
  {
  }

  lemma ReadyParts(m: Process, vl: Ptr, vr: Ptr, n: nat)
    requires Ready(m, vl, vr, n)
    ensures m.Ok() && m.InRange(vl, n) && m.InRange(vr, n) && Steady(m, vl, vr, n)
    ensures m.InRange(vl, 0) && m.InRange(vr, 0)
  {
  }

  lemma LengthIs(vl: Ptr, vr: Ptr, n: nat)
    ensures Length(vl, vr, n) == if vl.Tagged? || vr.Tagged? then EffLen(n) else n
  {
  }

  lemma PlusPlus(p: Ptr, j: nat, k: nat)
    ensures p.Plus(0) == p && p.Plus(j).Plus(k) == p.Plus(j + k)
    ensures p.Plus(j).Tagged? == p.Tagged?
  {
  }

  /** The library function on native memory. */
  method CallNative(m: Process, fn: Fn, vl: Ptr, vr: Ptr, n: nat) returns (res: int)
    requires m.Ok() && vl.Native? && vr.Native? && m.InRange(vl, n) && m.InRange(vr, n)
    modifies m.native, m.s0`cache, m.s1`cache, m.s2`cache
    ensures m.Ok()
    ensures Ran(fn, old(m.Mem(vl.Area())), old(m.Mem(vr.Area())), vl.Off(), vr.Off(), n, m.Mem(vl.Area()), res)
    ensures forall area :: m.Known(area) && !(fn.Writes() && area == vl.Area()) ==> m.Mem(area) == old(m.Mem(area))
  {
    hide *;
    NativeHeld(m, vl, n, fn.Writes());
    NativeHeld(m, vr, n, false);
    res := Call(m, fn, InNative(vl.i), InNative(vr.i), n, vl, vr);
  }

  lemma NativeHeld(m: Process, p: Ptr, n: nat, w: bool)
    requires p.Native? && m.InRange(p, n)
    ensures m.Held(InNative(p.i), p, w) && m.InChunk(p, n)
  {
  }

  lemma NotSameStore(vl: Ptr, vr: Ptr)
    ensures vl.Native? ==> !SameStore(vl, vr)
  {
  }

  lemma KnownArea(m: Process, p: Ptr, n: nat)
    requires m.InRange(p, n)
    ensures m.Known(p.Area())
  {
  }

  lemma RanChunksIs(fn: Fn, md: seq<Byte>, ms: seq<Byte>, same: bool, d: nat, s: nat, n: nat, bits: nat, md': seq<Byte>, res: int)
    requires same ==> ms == md
    ensures !(fn.Writes() && same) && Ran(fn, md, ms, d, s, n, md', res) ==> RanChunks(fn, md, ms, same, d, s, n, bits, md', res)
    ensures !fn.Writes() && md' == md && Compares(md, ms, d, s, n, res) ==> RanChunks(fn, md, ms, same, d, s, n, bits, md', res)
  {
  }

  /** Both links are good, and stay so up to the end of the next chunk. */
  ghost predicate Linked(m: Process, vl0: Raw, vr0: Raw, vl: Ptr, vr: Ptr, w: bool, ctr: nat)
    reads m.s0, m.s0.tlb, m.s1, m.s1.tlb, m.s2, m.s2.tlb
  {
    m.Held(vl0, vl, w) && m.Held(vr0, vr, false) && Settled(m, vl, vr, ctr)
  }

  lemma LinkedIs(m: Process, vl0: Raw, vr0: Raw, vl: Ptr, vr: Ptr, w: bool, ctr: nat)
    ensures Linked(m, vl0, vr0, vl, vr, w, ctr) <==> m.Held(vl0, vl, w) && m.Held(vr0, vr, false) && Settled(m, vl, vr, ctr)
    ensures Linked(m, vl0, vr0, vl, vr, w, ctr) ==> m.Held(vl0, vl, false)
  {
  }

  /** One round of the loop: a chunk up to the next end of a page, or the last one. A comparison that is
      decided ends early. */
  method Round(m: Process, fn: Fn, vl0: Raw, vr0: Raw, vl1: Ptr, vr1: Ptr, ctr: nat,
               ghost vl: Ptr, ghost vr: Ptr, ghost md: seq<Byte>, ghost ms: seq<Byte>, ghost len: nat)
    returns (res: int, vl0': Raw, vr0': Raw, vl1': Ptr, vr1': Ptr, ctr': nat)
    requires 0 < ctr <= len && m.Ok() && m.InRange(vl, len) && m.InRange(vr, len) && (vl.Tagged? || vr.Tagged?)
    requires vl1 == vl.Plus(len - ctr) && vr1 == vr.Plus(len - ctr)
    requires Linked(m, vl0, vr0, vl1, vr1, fn.Writes(), ctr) && Progress(m, fn.Writes(), vl, vr, md, ms, len - ctr, len)
    modifies m.native, m.s0`cache, m.s0`pages, m.s0.tlb, m.s1`cache, m.s1`pages, m.s1.tlb, m.s2`cache, m.s2`pages, m.s2.tlb
    ensures m.Ok() && ctr' < ctr && (fn.Writes() ==> res == 0)
    ensures forall area :: m.Known(area) && !(fn.Writes() && area == vl.Area()) ==> m.Mem(area) == old(m.Mem(area))
    ensures res != 0 ==> m.Mem(vl.Area()) == md && Compares(md, ms, vl.Off(), vr.Off(), len, res)
    ensures res == 0 ==> Progress(m, fn.Writes(), vl, vr, md, ms, len - ctr', len)
    ensures res == 0 && ctr' > 0 ==>
      vl1' == vl.Plus(len - ctr') && vr1' == vr.Plus(len - ctr') && Linked(m, vl0', vr0', vl1', vr1', fn.Writes(), ctr')
  {
    hide *;
    ghost var w, done := fn.Writes(), len - ctr;
    vl0', vr0', vl1', vr1', ctr' := vl0, vr0, vl1, vr1, 0;
    LinkedIs(m, vl0, vr0, vl1, vr1, w, ctr);
    var leftInVr := LeftInPage(m, vr0, vr1);
    var leftInVl := LeftInPage(m, vl0, vl1);
    LeftPositive(m, vl1);
    LeftPositive(m, vr1);
    MinIs(leftInVl, leftInVr);
    var minLeft := if leftInVr < leftInVl then leftInVr else leftInVl;
    MinIs(ctr, minLeft);
    WritesIs(fn);
    if ctr > minLeft {
      SettledIs(m, vl1, vr1, ctr);
      res := CallChunk(m, fn, vl0, vr0, minLeft, vl, vr, md, ms, done, len);
      if fn == MemcmpWrapper && res != 0 {
        return;
      }
      SettledIs(m, vl1, vr1, ctr);
      NextInRange(m, vl, len, done, minLeft);
      NextInRange(m, vr, len, done, minLeft);
      ProgressIs(m, w, vl, vr, md, ms, done + minLeft, len);
      vl0', vr0' := NextChunk(m, vl1, vr1, vl0, vr0, fn.Writes(), minLeft, leftInVl, leftInVr, ctr);
      ProgressIs(m, w, vl, vr, md, ms, done + minLeft, len);
      vl1', vr1', ctr' := vl1.Plus(minLeft), vr1.Plus(minLeft), ctr - minLeft;
      LinkedIs(m, vl0', vr0', vl1', vr1', w, ctr');
    } else {
      res := CallChunk(m, fn, vl0, vr0, ctr, vl, vr, md, ms, done, len);
    }
  }

  /** Runs one of the two-range functions, chunk by chunk if a range is in a store. */
  method MemWrapper(m: Process, vl: Ptr, vr: Ptr, n: nat, fn: Fn) returns (res: int)
    requires Ready(m, vl, vr, Length(vl, vr, n))
    modifies m.native, m.s0`cache, m.s0`pages, m.s0.tlb, m.s1`cache, m.s1`pages, m.s1.tlb, m.s2`cache, m.s2`pages, m.s2.tlb
    ensures m.Ok()
    ensures RanChunks(fn, old(m.Mem(vl.Area())), old(m.Mem(vr.Area())), SameStore(vl, vr), vl.Off(), vr.Off(),
                      Length(vl, vr, n), BitsOf(m, vl), m.Mem(vl.Area()), res)
    ensures forall area :: m.Known(area) && !(fn.Writes() && area == vl.Area()) ==> m.Mem(area) == old(m.Mem(area))
  {
    hide *;
    ReadyParts(m, vl, vr, Length(vl, vr, n));
    ghost var md, ms, w, len := m.Mem(vl.Area()), m.Mem(vr.Area()), fn.Writes(), Length(vl, vr, n);
    LengthIs(vl, vr, n);
    RangeOf(m, vl, len, 0);
    RangeOf(m, vr, len, 0);
    SameStoreArea(vl, vr);
    if vl.Native? && vr.Native? {
      NotSameStore(vl, vr);
      res := CallNative(m, fn, vl, vr, n);
      RanChunksIs(fn, md, ms, SameStore(vl, vr), vl.Off(), vr.Off(), len, BitsOf(m, vl), m.Mem(vl.Area()), res);
      return;
    }
    var ctr := EffLen(n);
    PlusPlus(vl, 0, 0);
    PlusPlus(vr, 0, 0);
    var vl0, vr0 := LinkRanges(m, vl, vr, fn.Writes(), len);
    LinkedIs(m, vl0, vr0, vl, vr, w, len);
    var vl1, vr1 := vl, vr;
    MidwayStarts(w, md, ms, SameStore(vl, vr), vl.Off(), vr.Off(), len, BitsOf(m, vl));
    ProgressIs(m, w, vl, vr, md, ms, 0, len);
    while ctr > 0
      invariant ctr <= len && m.Ok() && Progress(m, w, vl, vr, md, ms, len - ctr, len)
      invariant ctr > 0 ==>
        vl1 == vl.Plus(len - ctr) && vr1 == vr.Plus(len - ctr) && Linked(m, vl0, vr0, vl1, vr1, w, ctr)
      invariant forall area :: m.Known(area) && !(w && area == vl.Area()) ==> m.Mem(area) == old(m.Mem(area))
    {
      res, vl0, vr0, vl1, vr1, ctr := Round(m, fn, vl0, vr0, vl1, vr1, ctr, vl, vr, md, ms, len);
      if res != 0 {
        RanChunksIs(fn, md, ms, SameStore(vl, vr), vl.Off(), vr.Off(), len, BitsOf(m, vl), m.Mem(vl.Area()), res);
        return;
      }
    }
    ProgressIs(m, w, vl, vr, md, ms, len, len);
    MidwayEnds(fn, m.Mem(vl.Area()), m.Mem(vr.Area()), md, ms, SameStore(vl, vr), vl.Off(), vr.Off(), len, BitsOf(m, vl));
    res := 0;
  }

  lemma NextInRange(m: Process, p: Ptr, n: nat, done: nat, c: nat)
    requires m.Ok() && m.InRange(p, n) && done + c < n
    ensures m.InRange(p.Plus(done).Plus(c), 0) && p.Plus(done).Plus(c) == p.Plus(done + c)
    ensures p.Plus(done).Tagged? == p.Tagged?
  {
    hide *;
    RangeOf(m, p, n, done + c);
    RangeZero(m, p.Plus(done + c), n - done - c);
    PlusPlus(p, done, c);
  }

  lemma LeftPositive(m: Process, p: Ptr)
    ensures m.LeftIn(p) > 0
  {
  }

  lemma RangeZero(m: Process, p: Ptr, n: nat)
    requires m.InRange(p, n)
    ensures m.InRange(p, 0)
  {
  }
}
