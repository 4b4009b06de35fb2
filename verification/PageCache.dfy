/** The page cache behind a store: which pages of the backing storage are resident in which frame,
    how often each is pinned, and which frames are newer than the storage. */
module PageCache {
  import opened ByteSeqs

  /** `pins[p]` counts the notifications that page `p` was cached, minus those that it was dropped. */
  datatype Cache = Cache(
    storage: seq<Page>,
    frames: seq<Page>,
    frameOf: map<nat, nat>,
    pins: seq<nat>,
    dirty: set<nat>)

  ghost predicate Ok(c: Cache, numPages: nat, numFrames: nat, ps: nat) {
    && |c.storage| == numPages == |c.pins| && |c.frames| == numFrames
    && Uniform(c.storage, ps) && Uniform(c.frames, ps)
    && (forall p :: p in c.frameOf ==> p < numPages && c.frameOf[p] < numFrames)
    && (forall p, q :: p in c.frameOf && q in c.frameOf && p != q ==> c.frameOf[p] != c.frameOf[q])
    && (forall p :: 0 <= p < numPages && c.pins[p] > 0 ==> p in c.frameOf)
    && (forall p :: p in c.dirty ==> p in c.frameOf)
  }

  /** A frame that is newer than the storage is known to be: by the cache, or as one of `hot`. */
  ghost predicate Coherent(c: Cache, hot: set<nat>) {
    forall p :: p in c.frameOf && p < |c.storage| && c.frameOf[p] < |c.frames| ==>
      c.frames[c.frameOf[p]] == c.storage[p] || p in c.dirty || p in hot
  }

  /** The memory that a store stands for. */
  ghost function View(c: Cache): (v: seq<Page>)
    ensures |v| == |c.storage|
  {
    seq(|c.storage|, p requires 0 <= p < |c.storage| =>
      if p in c.frameOf && c.frameOf[p] < |c.frames| then c.frames[c.frameOf[p]] else c.storage[p])
  }

  lemma ViewUniform(c: Cache, numPages: nat, numFrames: nat, ps: nat)
    requires Ok(c, numPages, numFrames, ps)
    ensures Uniform(View(c), ps) && |View(c)| == numPages
  {
  }

  /** A cache with no page resident. */
  function Empty(storage: seq<Page>, numFrames: nat, ps: nat): Cache {
    Cache(storage, seq(numFrames, _ => seq(ps, _ => 0)), map[], seq(|storage|, _ => 0), {})
  }

  lemma EmptyIsOk(storage: seq<Page>, numFrames: nat, ps: nat)
    requires Uniform(storage, ps)
    ensures var c := Empty(storage, numFrames, ps);
      && Ok(c, |storage|, numFrames, ps) && View(c) == storage && c.frameOf == map[]
      && |c.pins| == |storage| && forall p :: 0 <= p < |storage| ==> c.pins[p] == 0
  {
  }

  lemma EmptyCoherent(c: Cache, hot: set<nat>)
    requires c.frameOf == map[]
    ensures Coherent(c, hot)
  {
  }

  /** Frame `f` holds no pinned page. */
  predicate CanTake(c: Cache, f: nat) {
    f < |c.frames| && forall p :: p in c.frameOf && c.frameOf[p] == f ==> p < |c.pins| && c.pins[p] == 0
  }

  /** Only pins protect a resident page from the next fault. */
  lemma OnlyPinsProtect(c: Cache, numPages: nat, numFrames: nat, ps: nat, p: nat)
    requires Ok(c, numPages, numFrames, ps) && p in c.frameOf
    ensures CanTake(c, c.frameOf[p]) <==> c.pins[p] == 0
  {
  }

  /** A page stays where it is, and stays marked. */
  ghost predicate Stays(c: Cache, c': Cache, p: nat) {
    && p in c.frameOf && p in c'.frameOf && c'.frameOf[p] == c.frameOf[p]
    && (p in c.dirty ==> p in c'.dirty)
  }

  // ---------- Moving pages ----------

  /** Page `q` leaves the cache; a dirty one is written back. */
  function Evict(c: Cache, q: nat): Cache
    requires q in c.frameOf && q < |c.storage| && c.frameOf[q] < |c.frames|
  {
    c.(storage := if q in c.dirty then c.storage[q := c.frames[c.frameOf[q]]] else c.storage,
       frameOf := c.frameOf - {q},
       dirty := c.dirty - {q})
  }

  lemma EvictKeeps(c: Cache, q: nat, hot: set<nat>, numPages: nat, numFrames: nat, ps: nat)
    requires Ok(c, numPages, numFrames, ps) && Coherent(c, hot) && q in c.frameOf && c.pins[q] == 0 && q !in hot
    ensures var c' := Evict(c, q);
      && Ok(c', numPages, numFrames, ps) && Coherent(c', hot) && View(c') == View(c)
      && forall p :: p in c.frameOf && p != q ==> Stays(c, c', p)
  {
  }

  /** Page `p` is read into frame `f`. */
  function LoadPage(c: Cache, p: nat, f: nat): Cache
    requires p < |c.storage| && f < |c.frames|
  {
    c.(frames := c.frames[f := c.storage[p]], frameOf := c.frameOf[p := f])
  }

  lemma LoadKeeps(c: Cache, p: nat, f: nat, hot: set<nat>, numPages: nat, numFrames: nat, ps: nat)
    requires Ok(c, numPages, numFrames, ps) && Coherent(c, hot) && p < numPages && f < numFrames && p !in c.frameOf
    requires forall q :: q in c.frameOf ==> c.frameOf[q] != f
    ensures var c' := LoadPage(c, p, f);
      && Ok(c', numPages, numFrames, ps) && Coherent(c', hot) && View(c') == View(c)
      && forall q :: q in c.frameOf ==> Stays(c, c', q)
  {
  }

  /** Frame `f` is taken for page `p`; the page it holds, if any, leaves first. */
  ghost predicate Takes(c: Cache, p: nat, f: nat, c': Cache) {
    && CanTake(c, f) && p < |c.storage|
    && (((forall q :: q in c.frameOf ==> c.frameOf[q] != f) && c' == LoadPage(c, p, f))
        || (exists q :: q in c.frameOf && c.frameOf[q] == f && q < |c.storage| && c' == LoadPage(Evict(c, q), p, f)))
  }

  /** All that a fault on page `p` may do: nothing if it is resident, else take any frame without a
      pinned page. */
  ghost predicate Faults(c: Cache, p: nat, c': Cache) {
    if p in c.frameOf then c' == c else exists f :: Takes(c, p, f, c')
  }

  /** A fault keeps the cache in order, the memory, and every page whose frame was not taken. */
  lemma FaultKeeps(c: Cache, p: nat, c': Cache, hot: set<nat>, numPages: nat, numFrames: nat, ps: nat)
    requires Ok(c, numPages, numFrames, ps) && Coherent(c, hot) && p < numPages && Faults(c, p, c')
    requires forall q :: q in hot ==> q < numPages && c.pins[q] > 0
    ensures Ok(c', numPages, numFrames, ps) && Coherent(c', hot) && View(c') == View(c)
    ensures c'.pins == c.pins && p in c'.frameOf
    ensures forall q :: q in c.frameOf && c.pins[q] > 0 ==> Stays(c, c', q)
  {
    hide Coherent, View;
    if p !in c.frameOf {
      var f :| Takes(c, p, f, c');
      if q :| q in c.frameOf && c.frameOf[q] == f && c' == LoadPage(Evict(c, q), p, f) {
        EvictKeeps(c, q, hot, numPages, numFrames, ps);
        LoadKeeps(Evict(c, q), p, f, hot, numPages, numFrames, ps);
      } else {
        LoadKeeps(c, p, f, hot, numPages, numFrames, ps);
      }
    }
  }

  /** A write through the address of a page that has lost its frame lands in the page that took it. */
  lemma LostWrite(c: Cache, p: nat, q: nat, o: nat, bs: seq<Byte>, hot: set<nat>, numPages: nat, numFrames: nat, ps: nat)
    requires Ok(c, numPages, numFrames, ps) && Coherent(c, hot) && p in c.frameOf && c.pins[p] == 0 && p !in hot
    requires q < numPages && q !in c.frameOf && o + |bs| <= ps
    ensures var f := c.frameOf[p];
      var c' := LoadPage(Evict(c, p), q, f);
      && Takes(c, q, f, c') && p !in c'.frameOf
      && |View(c)| == numPages && |View(c)[q]| == ps
      && View(WriteFrame(c', f, o, bs)) == View(c)[q := Splice(View(c)[q], o, bs)]
  {
    var f := c.frameOf[p];
    var e := Evict(c, p);
    var c' := LoadPage(e, q, f);
    EvictKeeps(c, p, hot, numPages, numFrames, ps);
    LoadKeeps(e, q, f, hot, numPages, numFrames, ps);
    OnlyPinsProtect(c, numPages, numFrames, ps, p);
    hide Splice;
    assert View(c')[q] == c'.frames[f];
  }

  // ---------- Notifications ----------

  function CachePage(c: Cache, p: nat): Cache
    requires p < |c.pins|
  {
    c.(pins := c.pins[p := c.pins[p] + 1])
  }

  function DropPage(c: Cache, p: nat, isDirty: bool): Cache
    requires p < |c.pins| && c.pins[p] > 0
  {
    c.(pins := c.pins[p := c.pins[p] - 1], dirty := if isDirty then c.dirty + {p} else c.dirty)
  }

  // ---------- Access to a frame ----------

  /** Bytes written to a frame. */
  function WriteFrame(c: Cache, f: nat, o: nat, bs: seq<Byte>): Cache
    requires f < |c.frames| && o + |bs| <= |c.frames[f]|
  {
    c.(frames := c.frames[f := Splice(c.frames[f], o, bs)])
  }

  /** A write to the frame of a page that is known to be dirty is a write to that page. */
  lemma WriteKeeps(c: Cache, p: nat, o: nat, bs: seq<Byte>, hot: set<nat>, numPages: nat, numFrames: nat, ps: nat)
    requires Ok(c, numPages, numFrames, ps) && Coherent(c, hot)
    requires p in c.frameOf && o + |bs| <= ps && (p in c.dirty || p in hot)
    ensures var c' := WriteFrame(c, c.frameOf[p], o, bs);
      && Ok(c', numPages, numFrames, ps) && Coherent(c', hot)
      && |View(c)| == numPages && |View(c)[p]| == ps
      && View(c') == View(c)[p := Splice(View(c)[p], o, bs)]
  {
    var c' := WriteFrame(c, c.frameOf[p], o, bs);
    hide Splice;
    assert View(c)[p] == c.frames[c.frameOf[p]];
  }

  lemma ViewAt(c: Cache, p: nat, numPages: nat, numFrames: nat, ps: nat)
    requires Ok(c, numPages, numFrames, ps) && p in c.frameOf
    ensures p < |View(c)| && View(c)[p] == c.frames[c.frameOf[p]] && |View(c)[p]| == ps
  {
  }

  // ---------- There is always a frame to take ----------

  lemma SizeOf(s: seq<nat>) returns (t: set<nat>)
    ensures forall x :: x in t <==> x in s
    ensures |t| <= |s|
    ensures (forall i, j :: 0 <= i < j < |s| ==> s[i] != s[j]) ==> |t| == |s|
    decreases |s|
  {
    if s == [] {
      t := {};
    } else {
      var k := |s| - 1;
      var t' := SizeOf(s[..k]);
      t := t' + {s[k]};
      assert s == s[..k] + [s[k]];
    }
  }

  lemma {:induction false} SubsetSize(a: set<nat>, b: set<nat>)
    requires a <= b
    ensures |a| <= |b|
    decreases a
  {
    if a != {} {
      var x :| x in a;
      SubsetSize(a - {x}, b - {x});
    }
  }

  /** Pages of the first `n` frames, all pinned. */
  lemma Owners(c: Cache, n: nat) returns (s: seq<nat>)
    requires n <= |c.frames| && forall f :: 0 <= f < n ==> !CanTake(c, f)
    requires forall p :: p in c.frameOf ==> p < |c.pins|
    ensures |s| == n
    ensures forall f :: 0 <= f < n ==> s[f] in c.frameOf && c.frameOf[s[f]] == f && c.pins[s[f]] > 0
  {
    s := [];
    if n > 0 {
      var t := Owners(c, n - 1);
      assert !CanTake(c, n - 1);
      var p :| p in c.frameOf && c.frameOf[p] == n - 1 && !(p < |c.pins| && c.pins[p] == 0);
      s := t + [p];
    }
  }

  /** More frames than pinned pages leave a frame to take. */
  lemma Room(c: Cache, pages: seq<nat>, numPages: nat, numFrames: nat, ps: nat)
    requires Ok(c, numPages, numFrames, ps) && |pages| < numFrames
    requires forall p :: 0 <= p < numPages && c.pins[p] > 0 ==> p in pages
    ensures exists f :: CanTake(c, f)
  {
    if forall f :: 0 <= f < numFrames ==> !CanTake(c, f) {
      var s := Owners(c, numFrames);
      var a := SizeOf(s);
      var b := SizeOf(pages);
      assert forall i, j :: 0 <= i < j < |s| ==> s[i] != s[j];
      SubsetSize(a, b);
      assert false;
    }
  }
}
