/** One store of the paged memory runtime: a translation buffer over a page cache over a backing
    storage. All accesses together behave like one flat byte memory. */
module Store {
  import Bits
  import opened Addresses
  import opened ByteSeqs
  import Links
  import opened PageCache
  import opened Tlb

  const MIN_FRAMES: nat := 6
  const MAX_FRAMES: nat := 65536

  /** A buffer that holds page 7 as its oldest entry when page 0 misses: the address reported for page 7
      does not lie in it. */
  lemma OldestAbove(base: nat, bits: nat)
    requires bits <= 30 && base + Start(8, bits) <= W64
    ensures Run([7, 1, 2, 3, 4]) == [4, 3, 2, 1, 7] && PageOf(0, bits) == 0
    ensures var addr := DropAddress(base, 0, 7, bits);
      !(base + Start(7, bits) <= addr < base + Start(7, bits) + Bits.Pow2(bits))
  {
    FiveMisses();
    hide *;
    StartOne(bits);
    PartsUnique(0, 0, bits);
    StartMono(0, 8, bits);
    SmallWords();
    DropInPage(base, 0, 7, bits, 8);
  }

  lemma SmallWords()
    ensures 8 < W31
  {
  }

  /** A miss while there is room. */
  lemma RunMiss(ps: seq<nat>, p: nat, pages: seq<nat>)
    requires Run(ps) == pages && p !in pages && |pages| < TLB_SIZE
    ensures Run(ps + [p]) == [p] + pages
  {
    assert (ps + [p])[..|ps|] == ps;
  }

  lemma TwoMisses()
    ensures Run([7, 1]) == [1, 7]
  {
    assert [7, 1][..1] == [7] && [7][..0] == [];
    assert Run([7]) == [7];
  }

  lemma FourMisses()
    ensures Run([7, 1, 2, 3]) == [3, 2, 1, 7]
  {
    TwoMisses();
    ThirdMiss();
    hide Run;
    RunMiss([7, 1, 2], 3, [2, 1, 7]);
    assert [7, 1, 2] + [3] == [7, 1, 2, 3];
  }

  lemma ThirdMiss()
    requires Run([7, 1]) == [1, 7]
    ensures Run([7, 1, 2]) == [2, 1, 7]
  {
    hide Run;
    RunMiss([7, 1], 2, [1, 7]);
    assert [7, 1] + [2] == [7, 1, 2];
  }

  lemma FiveMisses()
    ensures Run([7, 1, 2, 3, 4]) == [4, 3, 2, 1, 7]
  {
    FourMisses();
    hide Run;
    RunMiss([7, 1, 2, 3], 4, [3, 2, 1, 7]);
    assert [7, 1, 2, 3] + [4] == [7, 1, 2, 3, 4];
  }

  class Store {
    /** The page size is `2^bits`. */
    const bits: nat
    const numPages: nat
    const numFrames: nat
    /** Where the backing storage and the page cache lie. */
    const storageBase: nat
    const cacheBase: nat

    var cache: Cache
    const tlb: array<Entry>
    /** The pages in the buffer, most recent miss first. */
    ghost var pages: seq<nat>

    /** A store with nothing in its page cache and an empty buffer. */
    constructor (bits: nat, numFrames: nat, storageBase: nat, cacheBase: nat, storage: seq<Page>)
      requires bits <= 30 && 0 < |storage| <= 0x8000_0000 && 6 <= numFrames <= 65536
      requires Uniform(storage, Bits.Pow2(bits)) && storageBase + Start(|storage|, bits) <= W64
      ensures Valid() && pages == [] && fresh(tlb) && Mem() == Join(storage)
    {
      this.bits, this.numPages, this.numFrames := bits, |storage|, numFrames;
      this.storageBase, this.cacheBase := storageBase, cacheBase;
      cache := Empty(storage, numFrames, Bits.Pow2(bits));
      tlb := new Entry[TLB_SIZE](_ => UNUSED);
      pages := [];
      new;
      hide *;
      EmptyIsOk(storage, numFrames, Bits.Pow2(bits));
      UnusedHolds(tlb[..], cache);
      MakeGeometry();
      EmptyCoherent(cache, Hot(tlb[..]));
      MakeValid();
      SameView();
    }

    ghost predicate Geometry() {
      && bits <= 30 && 0 < numPages <= W31 && MIN_FRAMES <= numFrames <= MAX_FRAMES
      && storageBase + Start(numPages, bits) <= W64
    }

    ghost predicate Valid()
      reads this, tlb
    {
      && Geometry() && Ok(cache, numPages, numFrames, Bits.Pow2(bits))
      && Holds(tlb[..], pages, cache) && Coherent(cache, Hot(tlb[..]))
    }

    /** The flat memory that the store stands for. */
    ghost function Mem(): seq<Byte>
      reads this
    {
      Join(View(cache))
    }

    ghost function Size(): int {
      Start(numPages, bits)
    }

    /** The address of the page-cache byte that holds byte `a` of the store. */
    ghost predicate Points(res: int, a: nat)
      reads this`cache
    {
      PointsIn(cache, res, a)
    }

    ghost predicate PointsIn(c: Cache, res: int, a: nat) {
      var p := PageOf(a, bits);
      p in c.frameOf && res == cacheBase + Start(c.frameOf[p], bits) + OffsetOf(a, bits)
    }

    /** The page's next write will find its way to the storage. */
    ghost predicate Writable(p: nat)
      reads this`cache, tlb
    {
      WritableIn(cache, tlb[..], p)
    }

    ghost predicate WritableIn(c: Cache, es: seq<Entry>, p: nat) {
      p in c.frameOf && (p in c.dirty || p in Hot(es))
    }

    /** The state that a link changes. */
    ghost function State(): Links.State
      reads this`cache, this`pages, tlb
    {
      Links.State(tlb[..], pages, cache)
    }

    /** Bytes `a` up to `a + k` lie in one page. */
    ghost predicate InPage(a: nat, k: nat) {
      OffsetOf(a, bits) + k <= Bits.Pow2(bits)
    }

    // ---------- The page cache's side ----------

    function MStoragePage(ptr: int): nat {
      U64(ptr - storageBase)
    }

    /** Makes the page of an address resident. Any frame without a pinned page may be taken. */
    method Fault(ptr: nat, ghost a: nat, ghost hot: set<nat>) returns (res: nat)
      requires Geometry() && Ok(cache, numPages, numFrames, Bits.Pow2(bits)) && Coherent(cache, hot)
      requires ptr == storageBase + a && a < Start(numPages, bits)
      requires forall p :: p in hot ==> p < numPages && cache.pins[p] > 0
      requires exists f :: CanTake(cache, f)
      modifies this`cache
      ensures Ok(cache, numPages, numFrames, Bits.Pow2(bits)) && Coherent(cache, hot)
      ensures View(cache) == View(old(cache)) && cache.pins == old(cache).pins
      ensures Points(res, a)
      ensures forall p :: p in old(cache).frameOf && old(cache).pins[p] > 0 ==> Stays(old(cache), cache, p)
      ensures Faults(old(cache), PageOf(a, bits), cache)
    {
      hide *;
      GeometryParts();
      MStorageIs(ptr);
      PageParts(a, bits, numPages);
      var page := PageIndex(MStoragePage(ptr), bits);
      var offset := PageOffset(MStoragePage(ptr), bits);
      OkParts(cache, numPages, numFrames, Bits.Pow2(bits));
      if page !in cache.frameOf {
        MakeResident(page, hot);
        OkParts(cache, numPages, numFrames, Bits.Pow2(bits));
      } else {
        NoFault(cache, page);
      }
      NonNegative(cache.frameOf[page], bits);
      res := cacheBase + Start(cache.frameOf[page], bits) + offset;
      MakePoints(res, a);
    }

    /** Takes a frame for a page, from another page if need be. */
    method MakeResident(page: nat, ghost hot: set<nat>)
      requires Ok(cache, numPages, numFrames, Bits.Pow2(bits)) && Coherent(cache, hot)
      requires page < numPages && page !in cache.frameOf
      requires forall p :: p in hot ==> p < |cache.pins| && cache.pins[p] > 0
      requires exists f :: CanTake(cache, f)
      modifies this`cache
      ensures Ok(cache, numPages, numFrames, Bits.Pow2(bits)) && Coherent(cache, hot)
      ensures View(cache) == View(old(cache)) && cache.pins == old(cache).pins && page in cache.frameOf
      ensures forall p :: p in old(cache).frameOf && old(cache).pins[p] > 0 ==> Stays(old(cache), cache, p)
      ensures Faults(old(cache), page, cache)
    {
      hide Coherent, Ok, View, CanTake, Bits.Pow2;
      OkParts(cache, numPages, numFrames, Bits.Pow2(bits));
      var f :| CanTake(cache, f);
      TakeParts(cache, f);
      if q :| q in cache.frameOf && cache.frameOf[q] == f {
        cache := Evict(cache, q);
      }
      cache := LoadPage(cache, page, f);
      assert Takes(old(cache), page, f, cache);
      FaultKeeps(old(cache), page, cache, hot, numPages, numFrames, Bits.Pow2(bits));
    }

    lemma NoFault(c: Cache, page: nat)
      requires page in c.frameOf
      ensures Faults(c, page, c) && forall p :: p in c.frameOf ==> Stays(c, c, p)
    {
    }

    lemma MakePoints(res: int, a: nat)
      requires PageOf(a, bits) in cache.frameOf
      requires res == cacheBase + Start(cache.frameOf[PageOf(a, bits)], bits) + OffsetOf(a, bits)
      ensures Points(res, a)
    {
    }

    lemma NonNegative(f: nat, bits: nat)
      ensures Start(f, bits) >= 0
    {
      PartsUnique(f, 0, bits);
    }

    lemma OkParts(c: Cache, numPages: nat, numFrames: nat, ps: nat)
      requires Ok(c, numPages, numFrames, ps)
      ensures |c.storage| == numPages == |c.pins| && |c.frames| == numFrames
      ensures forall p :: p in c.frameOf ==> p < numPages && c.frameOf[p] < numFrames
      ensures forall p, q :: p in c.frameOf && q in c.frameOf && p != q ==> c.frameOf[p] != c.frameOf[q]
    {
    }

    lemma TakeParts(c: Cache, f: nat)
      requires CanTake(c, f)
      ensures f < |c.frames| && forall p :: p in c.frameOf && c.frameOf[p] == f ==> p < |c.pins| && c.pins[p] == 0
    {
    }

    /** A page entered a translation buffer. */
    method NotifyCached(ptr: nat, ghost a: nat)
      requires Geometry() && |cache.pins| == numPages && ptr == storageBase + a && a < Start(numPages, bits)
      modifies this`cache
      ensures PageOf(a, bits) < |old(cache).pins| && cache == CachePage(old(cache), PageOf(a, bits))
    {
      hide Start, PageOf, OffsetOf, U32, Bits.Pow2, Bits.Shr, Bits.And;
      PageParts(a, bits, numPages);
      cache := CachePage(cache, PageIndex(MStoragePage(ptr), bits));
    }

    /** A page left a translation buffer. Its index is taken in 32 bits, as in every other place. */
    method NotifyDropped(ptr: nat, isDirty: bool, ghost p: nat)
      requires p == PageIndex(MStoragePage(ptr), bits) && p < |cache.pins| && cache.pins[p] > 0
      modifies this`cache
      ensures cache == DropPage(old(cache), p, isDirty)
    {
      cache := DropPage(cache, PageIndex(MStoragePage(ptr), bits), isDirty);
    }

    // ---------- Linking ----------

    lemma ValidParts()
      requires Valid()
      ensures Geometry() && Ok(cache, numPages, numFrames, Bits.Pow2(bits))
      ensures Holds(tlb[..], pages, cache) && Coherent(cache, Hot(tlb[..]))
    {
    }

    /** Looks a page up in the buffer. The entries are compared as unsigned numbers. */
    method FindEntry(bsPageIndex: nat) returns (i: nat)
      requires Valid() && bsPageIndex < numPages
      ensures i <= TLB_SIZE == tlb.Length
      ensures i < TLB_SIZE ==> i < |pages| && pages[i] == bsPageIndex
      ensures i == TLB_SIZE ==> bsPageIndex !in pages
    {
      hide Ok, Coherent, Hot, Holds, View;
      ValidParts();
      HoldsParts(tlb[..], pages, cache);
      PagesBound();
      i := 0;
      while i < TLB_SIZE
        invariant i <= TLB_SIZE == tlb.Length
        invariant forall j :: 0 <= j < i && j < |pages| ==> pages[j] != bsPageIndex
      {
        assert tlb[..][i] == tlb[i];
        if U32(tlb[i].bsPage) == bsPageIndex {
          return;
        }
        i := i + 1;
      }
    }

    lemma PagesBound()
      requires Valid()
      ensures forall i :: 0 <= i < |pages| ==> pages[i] < numPages
    {
    }

    /** An access to a page in the buffer. */
    method Hit(i: nat, isDirty: bool, offset: nat, ghost a: nat) returns (res: nat)
      requires Valid() && i < TLB_SIZE == tlb.Length && i < |pages| && pages[i] == PageOf(a, bits)
      requires offset == OffsetOf(a, bits)
      modifies tlb
      ensures Valid() && Points(res, a)
      ensures Links.LinkStep(old(State()), PageOf(a, bits), isDirty, State())
    {
      hide Ok, Coherent, Hot, Holds, View, Touch, Start, PageOf, OffsetOf;
      ValidParts();
      HoldsParts(tlb[..], pages, cache);
      TouchKeeps(tlb[..], i, isDirty, pages, cache);
      TouchIs(tlb[..], i, isDirty);
      tlb[i] := tlb[i].(isDirty := tlb[i].isDirty || isDirty);
      assert tlb[..] == Touch(old(tlb[..]), i, isDirty);
      NonNegative(tlb[i].epcPage, bits);
      res := cacheBase + Start(tlb[i].epcPage, bits) + offset;
    }

    lemma TouchIs(es: seq<Entry>, i: nat, isDirty: bool)
      requires i < |es|
      ensures Touch(es, i, isDirty) == es[i := es[i].(isDirty := es[i].isDirty || isDirty)]
    {
    }

    /** Reports the oldest page as dropped, if there is one. */
    method DropOldest(ptr: nat, bsPageIndex: nat, ghost a: nat)
      requires Geometry() && ptr == storageBase + a && a < Start(numPages, bits) && bsPageIndex == PageOf(a, bits)
      requires Holds(tlb[..], pages, cache) && Ok(cache, numPages, numFrames, Bits.Pow2(bits))
      modifies this`cache
      ensures tlb.Length == TLB_SIZE && cache == Dropped(tlb[..], old(cache))
    {
      hide *;
      OkParts(cache, numPages, numFrames, Bits.Pow2(bits));
      HoldsOldest(tlb[..], pages, cache, numPages, numFrames, Bits.Pow2(bits));
      HoldsParts(tlb[..], pages, cache);
      GeometryParts();
      var removed := tlb[TLB_SIZE - 1].bsPage;
      DroppedIs(tlb[..], cache);
      if removed >= 0 {
        DropIndex(storageBase, a, removed, bits, numPages);
        MStorageIs(DropAddress(ptr, bsPageIndex, removed, bits));
        NotifyDropped(DropAddress(ptr, bsPageIndex, removed, bits), tlb[TLB_SIZE - 1].isDirty, removed);
      }
    }

    lemma MakeGeometry()
      requires bits <= 30 && 0 < numPages <= W31 && MIN_FRAMES <= numFrames <= MAX_FRAMES
      requires storageBase + Start(numPages, bits) <= W64
      ensures Geometry()
    {
    }

    lemma GeometryParts()
      requires Geometry()
      ensures bits <= 30 && 0 < numPages <= W31 && MIN_FRAMES <= numFrames <= MAX_FRAMES && TLB_SIZE < MIN_FRAMES
      ensures storageBase + Start(numPages, bits) <= W64
    {
    }

    lemma DroppedIs(es: seq<Entry>, c: Cache)
      requires |es| == TLB_SIZE && es[TLB_SIZE - 1].bsPage < |c.pins|
      requires es[TLB_SIZE - 1].bsPage >= 0 ==> c.pins[es[TLB_SIZE - 1].bsPage] > 0
      ensures TLB_SIZE > 0
      ensures var last := es[TLB_SIZE - 1];
        Dropped(es, c) == if last.bsPage >= 0 then DropPage(c, last.bsPage, last.isDirty) else c
    {
    }

    /** Moves the entries up and puts a new one first. */
    method ShiftIn(e: Entry)
      requires tlb.Length == TLB_SIZE
      modifies tlb
      ensures tlb[..] == Shift(old(tlb[..]), e)
    {
      forall i | 0 <= i < TLB_SIZE - 1 {
        tlb[i + 1] := tlb[i];
      }
      tlb[0] := e;
    }

    /** The frame of a page-cache address, in the 16 bits of an entry. */
    function FrameIndex(res: nat): nat
      requires res >= cacheBase
    {
      Bits.Shr(res - cacheBase, bits) % MAX_FRAMES
    }

    lemma FrameOfPointer(res: nat, a: nat)
      requires Geometry() && Ok(cache, numPages, numFrames, Bits.Pow2(bits)) && Points(res, a)
      ensures res >= cacheBase && FrameIndex(res) == cache.frameOf[PageOf(a, bits)]
      ensures Bits.And(res - cacheBase, Bits.Pow2(bits) - 1) == OffsetOf(a, bits)
    {
      hide Start, PageOf, OffsetOf, Bits.Pow2, Bits.Shr, Bits.And, Ok;
      var f := cache.frameOf[PageOf(a, bits)];
      OkParts(cache, numPages, numFrames, Bits.Pow2(bits));
      Parts(a, bits);
      PartsUnique(f, OffsetOf(a, bits), bits);
      ShiftAndMask(res - cacheBase, bits);
    }

    /** An access to a page that is not in the buffer: the fault comes first, then the oldest page is
        dropped, the entries move up, and the new page is cached. */
    method Miss(ptr: nat, bsPageIndex: nat, isDirty: bool, ghost a: nat) returns (res: nat)
      requires Valid() && ptr == storageBase + a && a < Start(numPages, bits)
      requires bsPageIndex == PageOf(a, bits) && bsPageIndex !in pages
      modifies this`cache, this`pages, tlb
      ensures Valid() && Points(res, a)
      ensures Links.LinkStep(old(State()), bsPageIndex, isDirty, State())
    {
      hide *;
      ValidParts();
      GeometryParts();
      HoldsParts(tlb[..], pages, cache);
      OkParts(cache, numPages, numFrames, Bits.Pow2(bits));
      ghost var es, s := tlb[..], State();
      StateIs();
      PagesBound();
      PinnedPages(es, pages, cache);
      Room(cache, pages, numPages, numFrames, Bits.Pow2(bits));
      res := Fault(ptr, a, Hot(es));
      HoldsAfterFault(es, pages, old(cache), cache);
      OkParts(cache, numPages, numFrames, Bits.Pow2(bits));
      HoldsParts(es, pages, cache);
      PointsParts(res, a);
      FrameOfPointer(res, a);
      HoldsOldest(es, pages, cache, numPages, numFrames, Bits.Pow2(bits));
      MissKeeps(es, pages, cache, bsPageIndex, isDirty, numPages, numFrames, Bits.Pow2(bits));
      ghost var c := cache;
      PointsIs(res, a);
      DropOldest(ptr, bsPageIndex, a);
      NotifiedIs(es, c, bsPageIndex);
      NotifyCached(ptr, a);
      ShiftIn(Entry(bsPageIndex, FrameIndex(res), isDirty));
      pages := After(pages, bsPageIndex);
      PointsStays(c, cache, res, a);
      PointsIs(res, a);
      StateIs();
      MissIs(s, c, bsPageIndex, isDirty, State());
      MakeValid();
    }

    lemma StateIs()
      ensures State() == Links.State(tlb[..], pages, cache)
      ensures Valid() <==> Geometry() && Links.Good(State(), numPages, numFrames, Bits.Pow2(bits))
      ensures forall p: nat :: Writable(p) <==> p in cache.frameOf && Links.Writable(State(), p)
      ensures forall res: int, a: nat, w: bool :: Held(res, a, w) == HeldIn(State().cache, State().es, res, a, w)
    {
    }

    lemma MissIs(s: Links.State, c: Cache, p: nat, isDirty: bool, s': Links.State)
      requires p !in s.pages && Faults(s.cache, p, c) && s'.pages == After(s.pages, p)
      requires |s.es| == TLB_SIZE && p in c.frameOf && p < |c.pins| && s.es[TLB_SIZE - 1].bsPage < |c.pins|
      requires s.es[TLB_SIZE - 1].bsPage >= 0 ==> c.pins[s.es[TLB_SIZE - 1].bsPage] > 0
      requires s'.cache == Notified(s.es, c, p) && s'.es == Shift(s.es, Entry(p, c.frameOf[p], isDirty))
      ensures Links.LinkStep(s, p, isDirty, s')
    {
      hide Faults, Notified, Shift, After;
      assert Links.MissStep(s.es, c, p, isDirty, s');
    }

    lemma PointsParts(res: int, a: nat)
      requires Points(res, a)
      ensures PageOf(a, bits) in cache.frameOf
    {
    }

    lemma MakeValid()
      requires Geometry() && Ok(cache, numPages, numFrames, Bits.Pow2(bits))
      requires Holds(tlb[..], pages, cache) && Coherent(cache, Hot(tlb[..]))
      ensures Valid()
    {
    }

    lemma NotifiedIs(es: seq<Entry>, c: Cache, p: nat)
      requires |es| == TLB_SIZE && p < |c.pins| && es[TLB_SIZE - 1].bsPage < |c.pins|
      requires es[TLB_SIZE - 1].bsPage >= 0 ==> c.pins[es[TLB_SIZE - 1].bsPage] > 0
      ensures |Dropped(es, c).pins| == |c.pins| && Notified(es, c, p) == CachePage(Dropped(es, c), p)
    {
    }

    lemma PointsStays(c: Cache, c': Cache, res: int, a: nat)
      requires PointsIn(c, res, a) && Stays(c, c', PageOf(a, bits))
      ensures PointsIn(c', res, a)
    {
    }

    lemma PointsIs(res: int, a: nat)
      ensures Points(res, a) == PointsIn(cache, res, a)
    {
    }

    lemma WritableIs(p: nat)
      ensures Writable(p) <==> p in cache.frameOf && (p in cache.dirty || p in Hot(tlb[..]))
      ensures Writable(p) == WritableIn(cache, tlb[..], p)
    {
    }

    lemma AllWritable()
      ensures forall p: nat :: Writable(p) == WritableIn(cache, tlb[..], p)
    {
    }

    lemma MStorageIs(ptr: int)
      ensures MStoragePage(ptr) == U64(ptr - storageBase)
    {
    }

    lemma PinnedPages(es: seq<Entry>, pages: seq<nat>, c: Cache)
      requires Holds(es, pages, c)
      ensures forall p :: 0 <= p < |c.pins| && c.pins[p] > 0 ==> p in pages
      ensures forall p :: p in Hot(es) ==> p in pages
    {
      forall p | p in Hot(es) ensures p in pages {
        InHot(es, p);
      }
    }

    /** A fault moves no pinned page, so the entries stay right. */
    lemma HoldsAfterFault(es: seq<Entry>, pages: seq<nat>, c: Cache, c': Cache)
      requires Holds(es, pages, c) && c'.pins == c.pins
      requires forall p :: p in pages ==> p < |c.pins|
      requires forall p :: p in c.frameOf && p < |c.pins| && c.pins[p] > 0 ==> Stays(c, c', p)
      ensures Holds(es, pages, c')
    {
      forall p | p in pages ensures Stays(c, c', p) {
        var i :| 0 <= i < |pages| && pages[i] == p;
        assert c.pins[pages[i]] == 1;
      }
      Links.HoldsStill(es, pages, c, c');
    }

    lemma SizeIs()
      ensures Size() == Start(numPages, bits)
    {
    }

    lemma SameView()
      ensures Mem() == Join(View(cache))
    {
    }

    /** Translates an address of the store: the page-cache address that holds the byte, which stays
        valid until the page leaves the cache. The flat memory does not change. */
    method Link(ptr: nat, size: nat, isDirty: bool, ghost a: nat) returns (res: nat)
      requires Valid() && ptr == storageBase + a && a < Start(numPages, bits) && InPage(a, size)
      modifies this`cache, this`pages, tlb
      ensures Valid() && Mem() == old(Mem()) && Points(res, a)
      ensures Links.LinkStep(old(State()), PageOf(a, bits), isDirty, State())
      ensures isDirty ==> Writable(PageOf(a, bits))
    {
      hide *;
      SameView();
      ValidParts();
      GeometryParts();
      StateIs();
      var mstoragePage := MStoragePage(ptr);
      MStorageIs(ptr);
      PageParts(a, bits, numPages);
      var bsPageIndex := PageIndex(mstoragePage, bits);
      var offset := PageOffset(mstoragePage, bits);
      var i := FindEntry(bsPageIndex);
      if i < TLB_SIZE {
        HoldsParts(tlb[..], pages, cache);
        res := Hit(i, isDirty, offset, a);
      } else {
        res := Miss(ptr, bsPageIndex, isDirty, a);
      }
      StateIs();
      Links.LinkKeeps(old(State()), bsPageIndex, isDirty, State(), numPages, numFrames, Bits.Pow2(bits));
      SameView();
    }

    /** Byte `a` can be used through address `res`, for writing if `w`. */
    ghost predicate Held(res: int, a: nat, w: bool)
      reads this`cache, tlb
    {
      HeldIn(cache, tlb[..], res, a, w)
    }

    ghost predicate HeldIn(c: Cache, es: seq<Entry>, res: int, a: nat, w: bool) {
      PointsIn(c, res, a) && (w ==> WritableIn(c, es, PageOf(a, bits)))
    }

    lemma HeldIs(res: int, a: nat, w: bool)
      ensures Held(res, a, w) <==> Points(res, a) && (w ==> Writable(PageOf(a, bits)))
      ensures Points(res, a) == PointsIn(cache, res, a)
    {
    }

    lemma AllHeld()
      ensures forall res: int, a: nat, w: bool :: Held(res, a, w) == HeldIn(cache, tlb[..], res, a, w)
    {
    }

    /** An address stays good while its page stays where it is. */
    lemma HeldAfter(s: Links.State, res: int, a: nat, w: bool)
      ensures HeldIn(s.cache, s.es, res, a, w) && Links.Keeps(s, State(), PageOf(a, bits), Links.Writable(s, PageOf(a, bits))) ==>
        Held(res, a, w)
      ensures HeldIn(s.cache, s.es, res, a, w) ==> PageOf(a, bits) in s.cache.frameOf
    {
    }

    lemma HeldSame(c: Cache, c': Cache, es: seq<Entry>)
      requires c'.frameOf == c.frameOf && c'.dirty == c.dirty
      ensures forall res: int, a: nat, w: bool :: HeldIn(c', es, res, a, w) == HeldIn(c, es, res, a, w)
    {
    }

    /** The runtime's page fault: a link that accesses no bytes yet. Another address stays good if its
        page was in the buffer, or the linked page was resident already. */
    method PageFault(ptr: nat, isDirty: bool, ghost a: nat, ghost r: int, ghost b: nat, ghost w: bool) returns (res: nat)
      requires Valid() && ptr == storageBase + a && a < Size()
      modifies this`cache, this`pages, tlb
      ensures Valid() && Mem() == old(Mem()) && Held(res, a, isDirty)
      ensures Links.LinkStep(old(State()), PageOf(a, bits), isDirty, State())
      ensures pages == After(old(pages), PageOf(a, bits)) && PageOf(a, bits) in pages
      ensures old(Held(r, b, w)) && (PageOf(b, bits) in old(pages) || PageOf(a, bits) in old(cache).frameOf) ==> Held(r, b, w)
    {
      hide *;
      SizeIs();
      Parts(a, bits);
      InPageIs(a, 0);
      ghost var s := State();
      StateIs();
      res := Link(ptr, 0, isDirty, a);
      StateIs();
      GeometryParts();
      PageParts(a, bits, numPages);
      Links.LinkKeeps(s, PageOf(a, bits), isDirty, State(), numPages, numFrames, Bits.Pow2(bits));
      HeldIs(res, a, isDirty);
      HeldAfter(s, r, b, w);
    }

    /** Links one address after the other. The buffer's history is the one of the pages accessed. */
    method LinkAll(offsets: seq<nat>)
      requires Valid() && pages == [] && forall i :: 0 <= i < |offsets| ==> offsets[i] < Size()
      modifies this`cache, this`pages, tlb
      ensures Valid() && Mem() == old(Mem())
      ensures pages == Run(PagesOf(offsets))
    {
      hide *;
      assert offsets[..0] == [];
      NothingRun();
      for i := 0 to |offsets|
        invariant Valid() && Mem() == old(Mem()) && pages == Run(PagesOf(offsets[..i]))
      {
        RunSnoc(offsets, i);
        var _ := PageFault(storageBase + offsets[i], false, offsets[i], 0, 0, false);
      }
      assert offsets[..|offsets|] == offsets;
    }

    /** The pages of a run of accesses. */
    ghost function PagesOf(offsets: seq<nat>): seq<nat> {
      seq(|offsets|, i requires 0 <= i < |offsets| => PageOf(offsets[i], bits))
    }

    lemma NothingRun()
      ensures Run(PagesOf([])) == []
    {
    }

    lemma RunSnoc(offsets: seq<nat>, i: nat)
      requires i < |offsets|
      ensures Run(PagesOf(offsets[..i + 1])) == After(Run(PagesOf(offsets[..i])), PageOf(offsets[i], bits))
    {
      var ps := PagesOf(offsets[..i + 1]);
      assert ps[..|ps| - 1] == PagesOf(offsets[..i]);
    }

    // ---------- Access through a linked address ----------

    lemma MemSize()
      requires Valid()
      ensures |Mem()| == Size()
    {
      hide Start, PageOf, OffsetOf, Holds, Coherent, Ok, Hot;
      ViewUniform(cache, numPages, numFrames, Bits.Pow2(bits));
      JoinLength(View(cache), Bits.Pow2(bits));
      StartIs(numPages, bits);
    }

    /** Where a linked address leads. */
    lemma Target(res: nat, a: nat)
      requires Valid() && Points(res, a)
      ensures var p := PageOf(a, bits);
        && p in cache.frameOf && p < numPages && res >= cacheBase
        && Bits.Shr(res - cacheBase, bits) == cache.frameOf[p] < |cache.frames|
        && Bits.And(res - cacheBase, Bits.Pow2(bits) - 1) == OffsetOf(a, bits)
        && p < |View(cache)| && View(cache)[p] == cache.frames[cache.frameOf[p]] && |View(cache)[p]| == Bits.Pow2(bits)
        && a == p * Bits.Pow2(bits) + OffsetOf(a, bits) && Uniform(View(cache), Bits.Pow2(bits))
    {
      hide *;
      ValidParts();
      GeometryParts();
      var p := PageOf(a, bits);
      PointsIs(res, a);
      PointsParts(res, a);
      OkParts(cache, numPages, numFrames, Bits.Pow2(bits));
      FrameOfPointer(res, a);
      FrameIndexIs(res);
      ViewAt(cache, p, numPages, numFrames, Bits.Pow2(bits));
      ViewUniform(cache, numPages, numFrames, Bits.Pow2(bits));
      Parts(a, bits);
      StartIs(p, bits);
      FrameShift(res, a);
    }

    /** Reads bytes at a linked address. */
    method Read(res: nat, k: nat, ghost a: nat) returns (bs: seq<Byte>)
      requires Valid() && Points(res, a) && InPage(a, k)
      ensures a + k <= |Mem()| && bs == Mem()[a..a + k]
    {
      hide *;
      Target(res, a);
      InPageIs(a, k);
      SameView();
      JoinSlice(View(cache), Bits.Pow2(bits), PageOf(a, bits), OffsetOf(a, bits), k);
      var f, o := Bits.Shr(res - cacheBase, bits), Bits.And(res - cacheBase, Bits.Pow2(bits) - 1);
      bs := cache.frames[f][o..o + k];
    }

    /** Writes bytes at an address that was linked for writing. */
    method Write(res: nat, bs: seq<Byte>, ghost a: nat)
      requires Valid() && Points(res, a) && InPage(a, |bs|) && Writable(PageOf(a, bits))
      modifies this`cache
      ensures a + |bs| <= |old(Mem())| && Mem() == Splice(old(Mem()), a, bs)
      ensures Valid() && cache.frameOf == old(cache).frameOf
      ensures forall p: nat :: old(Writable(p)) == Writable(p)
      ensures forall r: int, b: nat, w: bool :: old(Held(r, b, w)) == Held(r, b, w)
    {
      hide *;
      AllHeld();
      AllWritable();
      ValidParts();
      Target(res, a);
      InPageIs(a, |bs|);
      SameView();
      var p := PageOf(a, bits);
      WritableIs(p);
      JoinSplice(View(cache), Bits.Pow2(bits), p, OffsetOf(a, bits), bs);
      WriteKeeps(cache, p, OffsetOf(a, bits), bs, Hot(tlb[..]), numPages, numFrames, Bits.Pow2(bits));
      var f, o := Bits.Shr(res - cacheBase, bits), Bits.And(res - cacheBase, Bits.Pow2(bits) - 1);
      WriteFrameIs(cache, f, o, bs);
      HoldsSame(tlb[..], pages, cache, WriteFrame(cache, f, o, bs));
      cache := WriteFrame(cache, f, o, bs);
      SameView();
      AllHeld();
      HeldSame(old(cache), cache, tlb[..]);
      AllWritable();
      WritableSame(old(cache), cache);
      MakeValid();
    }

    lemma FrameIndexIs(res: nat)
      requires res >= cacheBase
      ensures FrameIndex(res) == Bits.Shr(res - cacheBase, bits) % MAX_FRAMES
    {
    }

    lemma FrameShift(res: nat, a: nat)
      requires Geometry() && Ok(cache, numPages, numFrames, Bits.Pow2(bits)) && Points(res, a) && res >= cacheBase
      ensures PageOf(a, bits) in cache.frameOf && Bits.Shr(res - cacheBase, bits) == cache.frameOf[PageOf(a, bits)]
    {
      hide Start, PageOf, OffsetOf, Bits.Pow2, Bits.Shr, Bits.And, Ok;
      var f := cache.frameOf[PageOf(a, bits)];
      Parts(a, bits);
      PartsUnique(f, OffsetOf(a, bits), bits);
      ShiftAndMask(res - cacheBase, bits);
    }

    lemma InPageIs(a: nat, k: nat)
      ensures InPage(a, k) <==> OffsetOf(a, bits) + k <= Bits.Pow2(bits)
    {
    }

    lemma WriteFrameIs(c: Cache, f: nat, o: nat, bs: seq<Byte>)
      requires f < |c.frames| && o + |bs| <= |c.frames[f]|
      ensures var c' := WriteFrame(c, f, o, bs); c'.frameOf == c.frameOf && c'.pins == c.pins && c'.dirty == c.dirty
    {
    }

    lemma HoldsSame(es: seq<Entry>, pages: seq<nat>, c: Cache, c': Cache)
      requires Holds(es, pages, c) && c'.frameOf == c.frameOf && c'.pins == c.pins
      ensures Holds(es, pages, c')
    {
    }

    lemma WritableSame(c: Cache, c': Cache)
      requires c'.frameOf == c.frameOf && c'.dirty == c.dirty
      ensures forall p: nat :: WritableIn(c, tlb[..], p) == WritableIn(c', tlb[..], p)
    {
    }
  }
}
