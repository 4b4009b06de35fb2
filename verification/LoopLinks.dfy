/** A loop's access, linked once for several iterations. */
module LoopLinks {
  import Bits
  import opened Addresses
  import opened CrossPage
  import opened Iterations
  import opened Store

  /** Iteration `i` can use the linked address, moved along with the loop. */
  ghost predicate Usable(s: Store, addr: int, a: nat, stepVal: int, size: nat, i: nat)
    reads s`cache
  {
    a + i * stepVal >= 0 && s.InPage(a + i * stepVal, size) && s.Points(addr + i * stepVal, a + i * stepVal)
  }

  /** Links an access and tells for how many iterations the link is good. An access that crosses a page
      boundary is good for one; for any other, all of them stay in the page and lead to their bytes. */
  method LinkLoop(b: BounceBuffer, ptr: nat, size: nat, isDirty: bool, stepVal: int, ghost a: nat)
    returns (res: Linked, n: nat)
    requires b.Ready() && ptr == b.store.storageBase + a && a < b.store.Size() && 0 < size
    requires b.store.InPage(a, size) || b.Crosses(a, size)
    requires b.store.cacheBase + Start(b.store.numFrames, b.store.bits) < W64
    requires I32(stepVal) != 0 && StepSafe(Bits.Pow2(b.store.bits), stepVal, size)
    modifies b, b.buffer, b.store`cache, b.store`pages, b.store.tlb
    ensures b.Ready() && b.store.Mem() == old(b.store.Mem()) && n >= 1
    ensures res.InBuffer? <==> b.Crosses(a, size)
    ensures res.InBuffer? ==> n == 1
    ensures res.InCache? ==> forall i: nat :: i < n ==> Usable(b.store, res.addr, a, stepVal, size, i)
  {
    hide *;
    res := b.LinkCrossPage(ptr, size, isDirty, a);
    match res
    case InBuffer =>
      n := ValidIterations(true, true, 0, b.store.cacheBase, b.store.bits, stepVal, size);
      OneInBuffer(b.store.cacheBase, b.store.bits, stepVal, size);
    case InCache(addr) =>
      b.ReadyParts();
      InThePage(b, a, size);
      n := ValidIterations(true, false, addr, b.store.cacheBase, b.store.bits, stepVal, size);
      ManyInPage(b.store, addr, a, stepVal, size, n);
  }

  lemma OneInBuffer(cacheBase: nat, bits: nat, stepVal: int, size: nat)
    ensures ValidIterations(true, true, 0, cacheBase, bits, stepVal, size) == 1
  {
  }

  lemma InThePage(b: BounceBuffer, a: nat, size: nat)
    requires b.store.InPage(a, size) || b.Crosses(a, size)
    requires !b.Crosses(a, size)
    ensures b.store.InPage(a, size)
  {
  }

  lemma ManyInPage(s: Store, addr: nat, a: nat, stepVal: int, size: nat, n: nat)
    requires s.Valid() && s.Points(addr, a) && s.InPage(a, size) && 0 < size
    requires s.cacheBase + Start(s.numFrames, s.bits) < W64
    requires I32(stepVal) != 0 && StepSafe(Bits.Pow2(s.bits), stepVal, size)
    requires n == ValidIterations(true, false, addr, s.cacheBase, s.bits, stepVal, size)
    ensures n >= 1 && forall i: nat :: i < n ==> Usable(s, addr, a, stepVal, size, i)
  {
    hide *;
    s.ValidParts();
    s.GeometryParts();
    s.OkParts(s.cache, s.numPages, s.numFrames, Bits.Pow2(s.bits));
    s.PointsIs(addr, a);
    PointsValue(s, addr, a);
    s.InPageIs(a, size);
    var f, o := s.cache.frameOf[PageOf(a, s.bits)], OffsetOf(a, s.bits);
    Parts(a, s.bits);
    PartsUnique(f, o, s.bits);
    StartMono(f, s.numFrames, s.bits);
    IterationsAreSafe(addr, s.cacheBase, s.bits, stepVal, size);
    AtLeastOne(addr, s.cacheBase, s.bits, stepVal, size);
    forall i: nat | i < n ensures Usable(s, addr, a, stepVal, size, i) {
      InsideAt(o, Bits.Pow2(s.bits), stepVal, size, n, i);
      MoveAlong(s, addr, a, stepVal, size, i);
    }
  }

  lemma AtLeastOne(ptr: nat, cacheBase: nat, bits: nat, stepVal: int, size: nat)
    requires I32(stepVal) != 0
    ensures ValidIterations(true, false, ptr, cacheBase, bits, stepVal, size) >= 1
  {
  }

  lemma PointsValue(s: Store, addr: int, a: nat)
    requires s.Points(addr, a)
    ensures PageOf(a, s.bits) in s.cache.frameOf
    ensures addr == s.cacheBase + Start(s.cache.frameOf[PageOf(a, s.bits)], s.bits) + OffsetOf(a, s.bits)
  {
  }

  lemma InsideAt(o: nat, ps: nat, step: int, size: nat, n: nat, i: nat)
    requires AllInside(o, ps, step, size, n) && i < n
    ensures 0 <= o + i * step && o + i * step + size <= ps
  {
    assert Inside(o, ps, step, size, i);
  }

  lemma MoveAlong(s: Store, addr: int, a: nat, stepVal: int, size: nat, i: nat)
    requires s.Points(addr, a) && 0 < size
    requires 0 <= OffsetOf(a, s.bits) + i * stepVal && OffsetOf(a, s.bits) + i * stepVal + size <= Bits.Pow2(s.bits)
    ensures Usable(s, addr, a, stepVal, size, i)
  {
    PointsValue(s, addr, a);
    hide Start, PageOf, OffsetOf, Bits.Pow2;
    var x := i * stepVal;
    Parts(a, s.bits);
    PartsUnique(PageOf(a, s.bits), OffsetOf(a, s.bits) + x, s.bits);
  }
}
