/** One link as a relation between states, with every choice that the page cache has; and exactly when
    an address outlives the next two links. */
module Links {
  import ByteSeqs
  import opened PageCache
  import opened Tlb

  /** The entries of the translation buffer, the pages they hold, and the page cache. */
  datatype State = State(es: seq<Entry>, pages: seq<nat>, cache: Cache)

  ghost predicate Good(s: State, numPages: nat, numFrames: nat, ps: nat) {
    Ok(s.cache, numPages, numFrames, ps) && Holds(s.es, s.pages, s.cache) && Coherent(s.cache, Hot(s.es))
  }

  /** The pages in the buffer have entries that allow the notifications of a miss. */
  predicate Droppable(es: seq<Entry>, c: Cache) {
    && |es| == TLB_SIZE && es[TLB_SIZE - 1].bsPage < |c.pins|
    && (es[TLB_SIZE - 1].bsPage >= 0 ==> c.pins[es[TLB_SIZE - 1].bsPage] > 0)
  }

  /** All that a link of page `p` may do. */
  ghost predicate LinkStep(s: State, p: nat, isDirty: bool, s': State) {
    if p in s.pages then
      && s'.pages == s.pages && s'.cache == s.cache
      && exists i: nat :: i < |s.pages| && i < |s.es| && s.pages[i] == p && s'.es == Touch(s.es, i, isDirty)
    else
      && s'.pages == After(s.pages, p)
      && exists c :: Faults(s.cache, p, c) && MissStep(s.es, c, p, isDirty, s')
  }

  /** After the fault: notifications and the new entry. */
  ghost predicate MissStep(es: seq<Entry>, c: Cache, p: nat, isDirty: bool, s': State) {
    && p in c.frameOf && p < |c.pins| && Droppable(es, c)
    && s'.cache == Notified(es, c, p) && s'.es == Shift(es, Entry(p, c.frameOf[p], isDirty))
  }

  /** The page is where it was, and still writable if `w` says that it was. */
  ghost predicate Keeps(s: State, s': State, p: nat, w: bool) {
    && p in s.cache.frameOf && p in s'.cache.frameOf && s'.cache.frameOf[p] == s.cache.frameOf[p]
    && (w ==> p in s'.cache.dirty || p in Hot(s'.es))
  }

  ghost predicate Writable(s: State, p: nat) {
    p in s.cache.dirty || p in Hot(s.es)
  }

  // ---------- What every link keeps ----------

  lemma HitKeeps(s: State, p: nat, isDirty: bool, s': State, numPages: nat, numFrames: nat, ps: nat)
    requires Good(s, numPages, numFrames, ps) && p in s.pages && LinkStep(s, p, isDirty, s')
    ensures Good(s', numPages, numFrames, ps) && View(s'.cache) == View(s.cache)
    ensures forall q :: q in s.cache.frameOf ==> Keeps(s, s', q, Writable(s, q))
    ensures p in s.cache.frameOf && (isDirty ==> Writable(s', p))
  {
    hide Hot, Coherent, Ok, View, Touch;
    var i: nat :| i < |s.pages| && i < |s.es| && s.pages[i] == p && s'.es == Touch(s.es, i, isDirty);
    TouchKeeps(s.es, i, isDirty, s.pages, s.cache);
  }

  lemma HotArePinned(s: State, numPages: nat, numFrames: nat, ps: nat)
    requires Good(s, numPages, numFrames, ps)
    ensures forall q :: q in s.pages ==> q < numPages && q in s.cache.frameOf && s.cache.pins[q] == 1
    ensures forall q :: q in Hot(s.es) ==> q in s.pages
  {
    hide Hot, Coherent;
    forall q | q in Hot(s.es) ensures q in s.pages {
      InHot(s.es, q);
    }
  }

  lemma MissKeepsGood(s: State, c: Cache, p: nat, isDirty: bool, s': State, numPages: nat, numFrames: nat, ps: nat)
    requires Good(s, numPages, numFrames, ps) && p !in s.pages && p < numPages
    requires Faults(s.cache, p, c) && MissStep(s.es, c, p, isDirty, s') && s'.pages == After(s.pages, p)
    ensures Good(s', numPages, numFrames, ps) && View(s'.cache) == View(s.cache)
    ensures c.pins == s.cache.pins && Ok(c, numPages, numFrames, ps) && s'.cache.frameOf == c.frameOf
    ensures forall q :: q in s.cache.frameOf && Stays(s.cache, c, q) ==> Keeps(s, s', q, Writable(s, q))
    ensures forall q :: q in s.pages ==> Stays(s.cache, c, q)
    ensures isDirty ==> Writable(s', p)
  {
    hide Hot, Coherent, Ok, View, Touch, Faults, Holds, After, Shift;
    HotArePinned(s, numPages, numFrames, ps);
    FaultKeeps(s.cache, p, c, Hot(s.es), numPages, numFrames, ps);
    HoldsStill(s.es, s.pages, s.cache, c);
    MissKeeps(s.es, s.pages, c, p, isDirty, numPages, numFrames, ps);
  }

  /** A fault moves no pinned page, so the entries stay right. */
  lemma HoldsStill(es: seq<Entry>, pages: seq<nat>, c: Cache, c': Cache)
    requires Holds(es, pages, c) && c'.pins == c.pins
    requires forall p :: p in pages ==> Stays(c, c', p)
    ensures Holds(es, pages, c')
  {
    forall i | 0 <= i < |pages| ensures Stays(c, c', pages[i]) {
      assert pages[i] in pages;
    }
  }

  /** Every link keeps the state in order, the memory, and the pages of the buffer. If the page is
      resident already, it keeps every page. */
  lemma LinkKeeps(s: State, p: nat, isDirty: bool, s': State, numPages: nat, numFrames: nat, ps: nat)
    requires Good(s, numPages, numFrames, ps) && p < numPages && LinkStep(s, p, isDirty, s')
    ensures Good(s', numPages, numFrames, ps) && View(s'.cache) == View(s.cache)
    ensures s'.pages == After(s.pages, p) && p in s'.pages && p in s'.cache.frameOf && (isDirty ==> Writable(s', p))
    ensures forall q :: q in s.pages ==> Keeps(s, s', q, Writable(s, q))
    ensures p in s.cache.frameOf ==>
      s'.cache.frameOf == s.cache.frameOf && forall q :: q in s.cache.frameOf ==> Keeps(s, s', q, Writable(s, q))
  {
    hide Hot, Coherent, Ok, View, Touch, Faults, Holds, MissStep, Keeps;
    HotArePinned(s, numPages, numFrames, ps);
    if p in s.pages {
      HitKeeps(s, p, isDirty, s', numPages, numFrames, ps);
    } else {
      var c :| Faults(s.cache, p, c) && MissStep(s.es, c, p, isDirty, s');
      MissKeepsGood(s, c, p, isDirty, s', numPages, numFrames, ps);
      if p in s.cache.frameOf {
        ResidentStays(s.cache, p, c);
      }
      assert s'.pages[0] == p;
      HotArePinned(s', numPages, numFrames, ps);
    }
  }

  lemma ResidentStays(c: Cache, p: nat, c': Cache)
    requires Faults(c, p, c') && p in c.frameOf
    ensures c' == c && forall q :: q in c.frameOf ==> Stays(c, c', q)
  {
  }

  // ---------- The next two links ----------

  /** Pages `q` and `q + 1` can be linked, in this order, while an address in page `p` is in use. They
      cannot if `p` is the oldest page of the buffer, neither `q` nor `q + 1` is in it, and one of them is
      not resident. */
  predicate Steady(pages: seq<nat>, frameOf: map<nat, nat>, p: nat, q: nat) {
    !(|pages| == TLB_SIZE && pages[TLB_SIZE - 1] == p && q !in pages && q + 1 !in pages &&
      !(q in frameOf && q + 1 in frameOf))
  }

  lemma KeepsTwice(s: State, s': State, s'': State, p: nat, w: bool)
    requires Keeps(s, s', p, w) && Keeps(s', s'', p, Writable(s', p))
    ensures Keeps(s, s'', p, w)
  {
    hide Hot;
  }

  lemma KeepsLess(s: State, s': State, p: nat, w: bool, v: bool)
    requires Keeps(s, s', p, w) && (v ==> w)
    ensures Keeps(s, s', p, v)
  {
    hide Hot;
  }

  /** Between two links, at most bytes in frames are written. */
  ghost predicate Alike(s: State, t: State) {
    && t.es == s.es && t.pages == s.pages && t.cache.frameOf == s.cache.frameOf && t.cache.pins == s.cache.pins
    && t.cache.dirty == s.cache.dirty && t.cache.storage == s.cache.storage
  }

  lemma KeepsAlike(s: State, s': State, t: State, p: nat, w: bool)
    requires Keeps(s, s', p, w) && Alike(s', t)
    ensures Keeps(s, t, p, w)
  {
  }

  lemma AlikeParts(s: State, t: State)
    requires Alike(s, t)
    ensures t.pages == s.pages && t.cache.frameOf == s.cache.frameOf
  {
  }

  lemma AlikeItself(s: State)
    ensures Alike(s, s)
  {
  }

  /** In a steady state, linking pages `p` and `q` leaves `p` in the buffer, or the next page resident. */
  lemma SteadyLeaves(s: State, p: nat, q: nat, w: bool, s1: State, s2: State, numPages: nat, numFrames: nat, ps: nat)
    requires Good(s, numPages, numFrames, ps) && p < numPages && q + 1 < numPages
    requires LinkStep(s, p, w, s1) && LinkStep(s1, q, false, s2) && Steady(s.pages, s.cache.frameOf, p, q)
    ensures p in s2.pages || q + 1 in s2.cache.frameOf
  {
    hide Good, LinkStep, Keeps, Writable, After, Distinct;
    LinkKeeps(s, p, w, s1, numPages, numFrames, ps);
    LinkKeeps(s1, q, false, s2, numPages, numFrames, ps);
    GoodPages(s, numPages, numFrames, ps);
    StaysForTwo(s.pages, p, q);
    if p !in s2.pages {
      HitIs(s, p, w, s1);
      NextResident(s1, q, s2, numPages, numFrames, ps);
    }
  }

  /** In a steady state, an address in `p` outlives linking `q` and then `q + 1`. */
  lemma SteadyKeeps(s: State, p: nat, q: nat, w: bool, s1: State, s2: State, t: State, s3: State,
                    numPages: nat, numFrames: nat, ps: nat)
    requires Good(s, numPages, numFrames, ps) && p < numPages && q + 1 < numPages
    requires LinkStep(s, p, w, s1) && LinkStep(s1, q, false, s2) && LinkStep(t, q + 1, false, s3)
    requires Alike(s2, t) && Good(t, numPages, numFrames, ps)
    requires Steady(s.pages, s.cache.frameOf, p, q)
    ensures Keeps(s1, s3, p, w)
  {
    hide Good, LinkStep, Keeps, Writable, After, Distinct, Alike, Steady;
    LinkKeeps(s, p, w, s1, numPages, numFrames, ps);
    LinkKeeps(s1, q, false, s2, numPages, numFrames, ps);
    LinkKeeps(t, q + 1, false, s3, numPages, numFrames, ps);
    SteadyLeaves(s, p, q, w, s1, s2, numPages, numFrames, ps);
    AlikeParts(s2, t);
    KeepsLess(s1, s2, p, Writable(s1, p), w);
    KeepsAlike(s1, s2, t, p, w);
    KeepsResident(s1, t, p, w);
    KeepsTwice(s1, t, s3, p, w);
  }

  lemma KeepsResident(s: State, s': State, p: nat, w: bool)
    requires Keeps(s, s', p, w)
    ensures p in s'.cache.frameOf
  {
  }

  lemma GoodPages(s: State, numPages: nat, numFrames: nat, ps: nat)
    requires Good(s, numPages, numFrames, ps)
    ensures |s.pages| <= TLB_SIZE && Distinct(s.pages)
  {
  }

  lemma HitIs(s: State, p: nat, w: bool, s': State)
    requires LinkStep(s, p, w, s') && p in s.pages
    ensures s'.pages == s.pages && s'.cache == s.cache
  {
  }

  /** Linking `q` leaves the next page resident if it is in the buffer, or resident together with `q`. */
  lemma NextResident(s: State, q: nat, s': State, numPages: nat, numFrames: nat, ps: nat)
    requires Good(s, numPages, numFrames, ps) && q < numPages && LinkStep(s, q, false, s')
    requires q + 1 in s.pages || (q in s.cache.frameOf && q + 1 in s.cache.frameOf)
    ensures q + 1 in s'.cache.frameOf
  {
    hide Good, LinkStep;
    LinkKeeps(s, q, false, s', numPages, numFrames, ps);
  }

  /** Some fault on a page is always possible; it brings no other page in. */
  lemma SomeFault(s: State, p: nat, numPages: nat, numFrames: nat, ps: nat) returns (c: Cache)
    requires Good(s, numPages, numFrames, ps) && p < numPages && numFrames > TLB_SIZE
    ensures Faults(s.cache, p, c) && forall x :: x in c.frameOf ==> x == p || x in s.cache.frameOf
  {
    hide Hot, Coherent, View;
    c := s.cache;
    if p !in c.frameOf {
      Room(c, s.pages, numPages, numFrames, ps);
      var f :| CanTake(c, f);
      if q :| q in c.frameOf && c.frameOf[q] == f {
        c := LoadPage(Evict(c, q), p, f);
      } else {
        c := LoadPage(c, p, f);
      }
      assert Takes(s.cache, p, f, c);
    }
  }

  /** The same, leaving no room for one given page that is resident and not in the buffer. */
  lemma FaultOver(s: State, p: nat, x: nat, numPages: nat, numFrames: nat, ps: nat) returns (c: Cache)
    requires Good(s, numPages, numFrames, ps) && p < numPages && p !in s.cache.frameOf
    requires x in s.cache.frameOf && x !in s.pages
    ensures Faults(s.cache, p, c) && x !in c.frameOf
  {
    hide View;
    HotArePinned(s, numPages, numFrames, ps);
    var f := s.cache.frameOf[x];
    hide Hot;
    LostWrite(s.cache, x, p, 0, [], Hot(s.es), numPages, numFrames, ps);
    c := LoadPage(Evict(s.cache, x), p, f);
  }

  /** What a miss makes of the state, given what the fault left. */
  lemma MissTo(s: State, c: Cache, p: nat, isDirty: bool, numPages: nat, numFrames: nat, ps: nat) returns (s': State)
    requires Good(s, numPages, numFrames, ps) && p !in s.pages && p < numPages && Faults(s.cache, p, c)
    ensures LinkStep(s, p, isDirty, s') && s'.cache.frameOf == c.frameOf && s'.pages == After(s.pages, p)
  {
    hide Hot, Coherent, View;
    HotArePinned(s, numPages, numFrames, ps);
    FaultKeeps(s.cache, p, c, Hot(s.es), numPages, numFrames, ps);
    HoldsOldest(s.es, s.pages, s.cache, numPages, numFrames, ps);
    hide After, Faults, Holds, Ok;
    s' := State(Shift(s.es, Entry(p, c.frameOf[p], isDirty)), After(s.pages, p), Notified(s.es, c, p));
    assert MissStep(s.es, c, p, isDirty, s');
  }

  /** In a state that is not steady, some choice of frames takes the page's frame away. */
  lemma UnsteadyLoses(s: State, p: nat, q: nat, w: bool, numPages: nat, numFrames: nat, ps: nat)
    returns (s1: State, s2: State, s3: State)
    requires Good(s, numPages, numFrames, ps) && q + 1 < numPages && numFrames > TLB_SIZE
    requires !Steady(s.pages, s.cache.frameOf, p, q)
    ensures LinkStep(s, p, w, s1) && LinkStep(s1, q, false, s2) && LinkStep(s2, q + 1, false, s3)
    ensures Good(s2, numPages, numFrames, ps) && p in s2.cache.frameOf && p !in s3.cache.frameOf
  {
    hide Good, LinkStep, Faults, After, Distinct;
    s1 := FirstHit(s, p, w, numPages, numFrames, ps);
    HotArePinned(s1, numPages, numFrames, ps);
    var c: Cache;
    if q !in s1.cache.frameOf && q + 1 in s1.cache.frameOf {
      c := FaultOver(s1, q, q + 1, numPages, numFrames, ps);
    } else {
      c := SomeFault(s1, q, numPages, numFrames, ps);
    }
    s2 := MissTo(s1, c, q, false, numPages, numFrames, ps);
    LinkKeeps(s1, q, false, s2, numPages, numFrames, ps);
    KeepsResident(s1, s2, p, Writable(s1, p));
    GoodPages(s, numPages, numFrames, ps);
    InAfter(s.pages, q, p);
    InAfter(s.pages, q, q + 1);
    var d := FaultOver(s2, q + 1, p, numPages, numFrames, ps);
    s3 := MissTo(s2, d, q + 1, false, numPages, numFrames, ps);
  }

  lemma FirstHit(s: State, p: nat, w: bool, numPages: nat, numFrames: nat, ps: nat) returns (s1: State)
    requires Good(s, numPages, numFrames, ps) && |s.pages| == TLB_SIZE && s.pages[TLB_SIZE - 1] == p
    ensures LinkStep(s, p, w, s1) && Good(s1, numPages, numFrames, ps)
    ensures s1.pages == s.pages && s1.cache == s.cache && p in s.cache.frameOf && p in s.pages
  {
    var i := TLB_SIZE - 1;
    s1 := State(Touch(s.es, i, w), s.pages, s.cache);
    assert s.pages[i] == p && s1.es == Touch(s.es, i, w);
    hide Hot, Coherent, Touch;
    HitKeeps(s, p, w, s1, numPages, numFrames, ps);
  }

  /** The links of two ranges and of the second one's next page, with a chunk between them. */
  ghost predicate Chunk(s: State, p: nat, q: nat, w: bool, s1: State, s2: State, t: State, s3: State,
                        numPages: nat, numFrames: nat, ps: nat)
  {
    && LinkStep(s, p, w, s1) && LinkStep(s1, q, false, s2)
    && Alike(s2, t) && Good(t, numPages, numFrames, ps) && LinkStep(t, q + 1, false, s3)
  }

  /** Over every choice of frames, an address in `p` outlives linking `q` and `q + 1` exactly in a steady
      state. */
  lemma StaysExactly(s: State, p: nat, q: nat, w: bool, numPages: nat, numFrames: nat, ps: nat)
    requires Good(s, numPages, numFrames, ps) && p < numPages && q + 1 < numPages && numFrames > TLB_SIZE
    ensures Steady(s.pages, s.cache.frameOf, p, q) <==>
      forall s1, s2, t, s3 :: Chunk(s, p, q, w, s1, s2, t, s3, numPages, numFrames, ps) ==> Keeps(s1, s3, p, w)
  {
    hide Good, LinkStep, Steady, Alike;
    if Steady(s.pages, s.cache.frameOf, p, q) {
      forall s1, s2, t, s3 | Chunk(s, p, q, w, s1, s2, t, s3, numPages, numFrames, ps) ensures Keeps(s1, s3, p, w) {
        SteadyKeeps(s, p, q, w, s1, s2, t, s3, numPages, numFrames, ps);
      }
    } else {
      var s1, s2, s3 := UnsteadyLoses(s, p, q, w, numPages, numFrames, ps);
      AlikeItself(s2);
      assert Chunk(s, p, q, w, s1, s2, s2, s3, numPages, numFrames, ps);
      assert !Keeps(s1, s3, p, w);
    }
  }

  // ---------- What goes wrong otherwise ----------

  lemma ViewOf(c: Cache, c': Cache)
    requires c'.storage == c.storage && c'.frames == c.frames && c'.frameOf == c.frameOf
    ensures View(c') == View(c)
  {
  }

  /** A write between two links keeps the state in order. */
  lemma WrittenGood(s: State, p: nat, o: nat, bs: seq<ByteSeqs.Byte>, numPages: nat, numFrames: nat, ps: nat) returns (t: State)
    requires Good(s, numPages, numFrames, ps) && p in s.cache.frameOf && Writable(s, p) && o + |bs| <= ps
    ensures s.cache.frameOf[p] < |s.cache.frames| && |s.cache.frames[s.cache.frameOf[p]]| == ps
    ensures t == State(s.es, s.pages, WriteFrame(s.cache, s.cache.frameOf[p], o, bs)) && Good(t, numPages, numFrames, ps)
    ensures |View(s.cache)| == numPages && p < numPages && |View(s.cache)[p]| == ps
    ensures View(t.cache) == View(s.cache)[p := ByteSeqs.Splice(View(s.cache)[p], o, bs)]
    ensures t.cache.frameOf == s.cache.frameOf && t.cache.pins == s.cache.pins
  {
    hide Hot, Coherent, View, ByteSeqs.Splice;
    ViewAt(s.cache, p, numPages, numFrames, ps);
    WriteKeeps(s.cache, p, o, bs, Hot(s.es), numPages, numFrames, ps);
    t := State(s.es, s.pages, WriteFrame(s.cache, s.cache.frameOf[p], o, bs));
  }

  /** Two chunks in a state that is not steady: `bs` is written behind page `p`'s address after linking
      `q`, and `bs'` after linking `q + 1`. For some choice of frames the second lands in page `q + 1`. */
  lemma UnsteadyWrites(s: State, p: nat, q: nat, o: nat, bs: seq<ByteSeqs.Byte>, o': nat, bs': seq<ByteSeqs.Byte>,
                       numPages: nat, numFrames: nat, ps: nat)
    returns (s1: State, s2: State, t: State, s3: State)
    requires Good(s, numPages, numFrames, ps) && q + 1 < numPages && numFrames > TLB_SIZE
    requires !Steady(s.pages, s.cache.frameOf, p, q) && o + |bs| <= ps && o' + |bs'| <= ps
    ensures LinkStep(s, p, true, s1) && LinkStep(s1, q, false, s2) && p in s1.cache.frameOf
    ensures View(s2.cache) == View(s.cache) && View(s3.cache) == View(t.cache)
    ensures p != q + 1 && |View(t.cache)| == numPages && View(t.cache)[q + 1] == View(s.cache)[q + 1]
    ensures var f := s1.cache.frameOf[p];
      && p in s2.cache.frameOf && s2.cache.frameOf[p] == f < |s2.cache.frames| && |s2.cache.frames[f]| == ps
      && t == State(s2.es, s2.pages, WriteFrame(s2.cache, f, o, bs)) && LinkStep(t, q + 1, false, s3)
      && f < |s3.cache.frames| && |s3.cache.frames[f]| == ps
      && |View(s.cache)| == numPages && p < numPages && |View(s.cache)[p]| == ps && |View(s.cache)[q + 1]| == ps
      && View(WriteFrame(s3.cache, f, o', bs')) ==
           View(s.cache)[p := ByteSeqs.Splice(View(s.cache)[p], o, bs)][q + 1 := ByteSeqs.Splice(View(s.cache)[q + 1], o', bs')]
  {
    hide Good, LinkStep, Faults, After, Distinct, View, Takes, ByteSeqs.Splice;
    s1 := FirstHit(s, p, true, numPages, numFrames, ps);
    HotArePinned(s1, numPages, numFrames, ps);
    TouchedIsWritable(s, s1, p, numPages, numFrames, ps);
    var c: Cache;
    if q !in s1.cache.frameOf && q + 1 in s1.cache.frameOf {
      c := FaultOver(s1, q, q + 1, numPages, numFrames, ps);
    } else {
      c := SomeFault(s1, q, numPages, numFrames, ps);
    }
    s2 := MissTo(s1, c, q, false, numPages, numFrames, ps);
    LinkKeeps(s1, q, false, s2, numPages, numFrames, ps);
    KeptWritable(s1, s2, p);
    GoodPages(s, numPages, numFrames, ps);
    InAfter(s.pages, q, p);
    InAfter(s.pages, q, q + 1);
    t := WrittenGood(s2, p, o, bs, numPages, numFrames, ps);
    s3 := TakeOver(t, p, q + 1, o', bs', numPages, numFrames, ps);
  }

  lemma TouchedIsWritable(s: State, s1: State, p: nat, numPages: nat, numFrames: nat, ps: nat)
    requires Good(s, numPages, numFrames, ps) && p in s.pages && LinkStep(s, p, true, s1)
    ensures Writable(s1, p)
  {
    hide Good, LinkStep;
    HitKeeps(s, p, true, s1, numPages, numFrames, ps);
  }

  lemma KeptWritable(s: State, s': State, p: nat)
    requires Keeps(s, s', p, Writable(s, p)) && Writable(s, p)
    ensures p in s'.cache.frameOf && s'.cache.frameOf[p] == s.cache.frameOf[p] && Writable(s', p)
  {
  }

  /** Linking page `x` may take the frame of a resident page `p` that is not in the buffer; a write
      through `p`'s old address then goes to `x`. */
  lemma TakeOver(s: State, p: nat, x: nat, o: nat, bs: seq<ByteSeqs.Byte>, numPages: nat, numFrames: nat, ps: nat)
    returns (s': State)
    requires Good(s, numPages, numFrames, ps) && p in s.cache.frameOf && p !in s.pages
    requires x < numPages && x !in s.cache.frameOf && x !in s.pages && o + |bs| <= ps
    ensures LinkStep(s, x, false, s') && View(s'.cache) == View(s.cache)
    ensures var f := s.cache.frameOf[p];
      && f < |s'.cache.frames| && |s'.cache.frames[f]| == ps
      && |View(s.cache)| == numPages && |View(s.cache)[x]| == ps
      && View(WriteFrame(s'.cache, f, o, bs)) == View(s.cache)[x := ByteSeqs.Splice(View(s.cache)[x], o, bs)]
  {
    hide View, Hot, Coherent, ByteSeqs.Splice;
    HotArePinned(s, numPages, numFrames, ps);
    var f := s.cache.frameOf[p];
    LostWrite(s.cache, p, x, o, bs, Hot(s.es), numPages, numFrames, ps);
    var c := LoadPage(Evict(s.cache, p), x, f);
    FaultKeeps(s.cache, x, c, Hot(s.es), numPages, numFrames, ps);
    HoldsOldest(s.es, s.pages, s.cache, numPages, numFrames, ps);
    hide After, Faults, Holds, Takes;
    s' := State(Shift(s.es, Entry(x, c.frameOf[x], false)), After(s.pages, x), Notified(s.es, c, x));
    assert MissStep(s.es, c, x, false, s');
    ViewOf(c, s'.cache);
    ViewOf(WriteFrame(c, f, o, bs), WriteFrame(s'.cache, f, o, bs));
  }

  /** Such a state: eight pages of two bytes, six frames, pages 1, 2, 3, 4, 0 in the buffer. */
  function FailingStart(): State {
    State([Entry(1, 1, false), Entry(2, 2, false), Entry(3, 3, false), Entry(4, 4, false), Entry(0, 0, false)],
          [1, 2, 3, 4, 0],
          Cache(seq(8, i requires 0 <= i < 8 => Bytes(i)), seq(6, i requires 0 <= i < 6 => Bytes(i)),
                map[0 := 0, 1 := 1, 2 := 2, 3 := 3, 4 := 4], [1, 1, 1, 1, 1, 0, 0, 0], {}))
  }

  function Bytes(i: nat): ByteSeqs.Page
    requires i < 8
  {
    [2 * i, 2 * i + 1]
  }

  ghost predicate Written(c: Cache, f: nat, o: nat, bs: seq<ByteSeqs.Byte>, c': Cache) {
    f < |c.frames| && o + |bs| <= |c.frames[f]| && c' == WriteFrame(c, f, o, bs)
  }

  /** Page `p` of the memory that a store stands for. */
  ghost predicate Shows(c: Cache, p: nat, bs: seq<ByteSeqs.Byte>) {
    p < |View(c)| && View(c)[p] == bs
  }

  /** Copying bytes 13 and 14 to addresses 0 and 1 from there: the first byte arrives, the second
      overwrites byte 15 instead. */
  lemma CopyFailsFrom() returns (s1: State, s2: State, t: State, s3: State, f: nat, end: Cache)
    ensures Good(FailingStart(), 8, 6, 2)
    ensures LinkStep(FailingStart(), 0, true, s1) && 0 in s1.cache.frameOf && f == s1.cache.frameOf[0]
    ensures LinkStep(s1, 6, false, s2) && Shows(s2.cache, 6, [12, 13])
    ensures t == State(s2.es, s2.pages, t.cache) && Written(s2.cache, f, 0, [13], t.cache)
    ensures LinkStep(t, 7, false, s3) && Shows(s3.cache, 7, [14, 15]) && Written(s3.cache, f, 1, [14], end)
    ensures Shows(end, 0, [13, 1]) && Shows(end, 7, [14, 14])
  {
    FailingStartIsGood();
    hide Good, LinkStep, View, FailingStart, Steady;
    s1, s2, t, s3 := UnsteadyWrites(FailingStart(), 0, 6, 0, [13], 1, [14], 8, 6, 2);
    f := s1.cache.frameOf[0];
    end := WriteFrame(s3.cache, f, 1, [14]);
  }

  lemma FailingStartIsGood()
    ensures Good(FailingStart(), 8, 6, 2) && !Steady(FailingStart().pages, FailingStart().cache.frameOf, 0, 6)
    ensures |View(FailingStart().cache)| == 8
    ensures forall p :: 0 <= p < 8 ==> View(FailingStart().cache)[p] == Bytes(p)
  {
    FailingCache();
    FailingHolds();
    var s := FailingStart();
    hide Hot, Ok, Holds, Bytes;
    assert forall p :: p in s.cache.frameOf ==> s.cache.frameOf[p] == p < 5;
  }

  lemma FailingCache()
    ensures Ok(FailingStart().cache, 8, 6, 2)
  {
    var c := FailingStart().cache;
    assert forall p :: p in c.frameOf ==> c.frameOf[p] == p < 5;
  }

  lemma FailingHolds()
    ensures Holds(FailingStart().es, FailingStart().pages, FailingStart().cache)
  {
    var s := FailingStart();
    FailingPins();
    hide Bytes;
    assert forall i :: 0 <= i < 5 ==> s.pages[i] < 5 && s.es[i] == Entry(s.pages[i], s.pages[i], false);
  }

  lemma FailingPins()
    ensures forall p :: 0 <= p < 8 ==> FailingStart().cache.pins[p] == if p in FailingStart().pages then 1 else 0
  {
    var s := FailingStart();
    hide Bytes;
    forall p | 0 <= p < 8 ensures s.cache.pins[p] == if p in s.pages then 1 else 0 {
      if p < 5 {
        assert s.pages[if p == 0 then 4 else p - 1] == p;
      }
    }
  }
}
