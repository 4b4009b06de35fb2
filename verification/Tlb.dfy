/** The five-entry translation buffer: a first-in first-out list of pages, most recent miss first. */
module Tlb {
  import ByteSeqs
  import opened Modular
  import opened PageCache

  const TLB_SIZE: nat := 5

  /** `bsPage` is -1 in an unused entry. */
  datatype Entry = Entry(bsPage: int, epcPage: nat, isDirty: bool)

  const UNUSED := Entry(-1, 65535, true)

  /** The pages after an access to page `p`. */
  function After(pages: seq<nat>, p: nat): seq<nat> {
    if p in pages then pages else ([p] + pages)[..Min(TLB_SIZE, |pages| + 1)]
  }

  ghost predicate Distinct(pages: seq<nat>) {
    forall i, j :: 0 <= i < j < |pages| ==> pages[i] != pages[j]
  }

  /** The entries hold `pages`, each resident in the frame that the entry names, and pinned. */
  ghost predicate Holds(es: seq<Entry>, pages: seq<nat>, c: Cache) {
    && |es| == TLB_SIZE && |pages| <= TLB_SIZE && Distinct(pages)
    && (forall i :: 0 <= i < |pages| ==> es[i].bsPage == pages[i])
    && (forall i :: |pages| <= i < TLB_SIZE ==> es[i].bsPage == -1)
    && (forall i :: 0 <= i < |pages| ==> pages[i] in c.frameOf && es[i].epcPage == c.frameOf[pages[i]])
    && (forall p :: 0 <= p < |c.pins| ==> c.pins[p] == if p in pages then 1 else 0)
  }

  /** A buffer of unused entries holds no page. */
  lemma UnusedHolds(es: seq<Entry>, c: Cache)
    requires |es| == TLB_SIZE && forall i :: 0 <= i < TLB_SIZE ==> es[i] == UNUSED
    requires forall p :: 0 <= p < |c.pins| ==> c.pins[p] == 0
    ensures Holds(es, [], c)
  {
  }

  /** The pages whose entry is marked dirty. */
  ghost function Hot(es: seq<Entry>): set<nat> {
    if es == [] then {}
    else Hot(es[..|es| - 1]) + HotPage(es[|es| - 1])
  }

  ghost function HotPage(e: Entry): set<nat> {
    if e.bsPage >= 0 && e.isDirty then {e.bsPage} else {}
  }

  lemma {:induction false} InHot(es: seq<Entry>, p: nat)
    ensures p in Hot(es) <==> exists i :: 0 <= i < |es| && p in HotPage(es[i])
    decreases |es|
  {
    if es != [] {
      var k := |es| - 1;
      InHot(es[..k], p);
      forall i | 0 <= i < |es| && p in HotPage(es[i]) ensures p in Hot(es) {
        if i < k {
          assert p in HotPage(es[..k][i]);
        }
      }
      if p in Hot(es) && p !in HotPage(es[k]) {
        var i :| 0 <= i < k && p in HotPage(es[..k][i]);
        assert p in HotPage(es[i]);
      }
    }
  }

  /** A hit marks the entry dirty if the access is. */
  function Touch(es: seq<Entry>, i: nat, isDirty: bool): seq<Entry>
    requires i < |es|
  {
    es[i := es[i].(isDirty := es[i].isDirty || isDirty)]
  }

  lemma TouchKeeps(es: seq<Entry>, i: nat, isDirty: bool, pages: seq<nat>, c: Cache)
    requires Holds(es, pages, c) && i < |pages| && Coherent(c, Hot(es))
    ensures Holds(Touch(es, i, isDirty), pages, c) && Coherent(c, Hot(Touch(es, i, isDirty)))
    ensures forall p: nat :: p in Hot(es) || (isDirty && p == pages[i]) ==> p in Hot(Touch(es, i, isDirty))
  {
    hide Hot;
    var t := Touch(es, i, isDirty);
    forall p: nat | p in Hot(es) || (isDirty && p == pages[i]) ensures p in Hot(t) {
      InHot(es, p);
      InHot(t, p);
      if p in Hot(es) {
        var j :| 0 <= j < |es| && p in HotPage(es[j]);
        assert p in HotPage(t[j]);
      } else {
        assert p in HotPage(t[i]);
      }
    }
  }

  /** The entries after a miss: all move up, the oldest leaves. */
  function Shift(es: seq<Entry>, e: Entry): seq<Entry>
    requires |es| == TLB_SIZE
  {
    [e] + es[..TLB_SIZE - 1]
  }

  /** The cache once the oldest page is reported as dropped. */
  function Dropped(es: seq<Entry>, c: Cache): (c': Cache)
    requires |es| == TLB_SIZE && es[TLB_SIZE - 1].bsPage < |c.pins|
    requires es[TLB_SIZE - 1].bsPage >= 0 ==> c.pins[es[TLB_SIZE - 1].bsPage] > 0
    ensures |c'.pins| == |c.pins|
  {
    var last := es[TLB_SIZE - 1];
    if last.bsPage >= 0 then DropPage(c, last.bsPage, last.isDirty) else c
  }

  /** The notifications of a miss: the oldest page is dropped, the new one cached. */
  function Notified(es: seq<Entry>, c: Cache, p: nat): Cache
    requires |es| == TLB_SIZE && p < |c.pins|
    requires es[TLB_SIZE - 1].bsPage < |c.pins|
    requires es[TLB_SIZE - 1].bsPage >= 0 ==> c.pins[es[TLB_SIZE - 1].bsPage] > 0
  {
    CachePage(Dropped(es, c), p)
  }

  lemma HoldsOldest(es: seq<Entry>, pages: seq<nat>, c: Cache, numPages: nat, numFrames: nat, ps: nat)
    requires Holds(es, pages, c) && Ok(c, numPages, numFrames, ps)
    ensures var last := es[TLB_SIZE - 1];
      && last.bsPage < |c.pins|
      && (if |pages| == TLB_SIZE then last.bsPage == pages[TLB_SIZE - 1] && last.bsPage >= 0 && c.pins[last.bsPage] == 1
          else last.bsPage == -1)
  {
  }

  /** A miss on page `p`, resident after the fault, leaves the buffer in order. */
  lemma MissKeeps(es: seq<Entry>, pages: seq<nat>, c: Cache, p: nat, isDirty: bool, numPages: nat, numFrames: nat, ps: nat)
    requires Holds(es, pages, c) && Ok(c, numPages, numFrames, ps) && Coherent(c, Hot(es))
    requires p in c.frameOf && p !in pages
    requires es[TLB_SIZE - 1].bsPage < |c.pins|
    requires es[TLB_SIZE - 1].bsPage >= 0 ==> c.pins[es[TLB_SIZE - 1].bsPage] > 0
    ensures var c' := Notified(es, c, p);
      var es' := Shift(es, Entry(p, c.frameOf[p], isDirty));
      && Holds(es', After(pages, p), c') && Ok(c', numPages, numFrames, ps) && Coherent(c', Hot(es'))
      && View(c') == View(c)
      && (forall q :: q in c.frameOf ==> Stays(c, c', q))
      && (forall q: nat :: q in Hot(es) && q in c.frameOf ==> q in Hot(es') || q in c'.dirty)
      && (isDirty ==> p in Hot(es'))
  {
    hide *;
    var e := Entry(p, c.frameOf[p], isDirty);
    HoldsParts(es, pages, c);
    OldestIsOther(es, pages, c, p, numPages, numFrames, ps);
    MissHot(es, e);
    MissHolds(es, pages, c, p, isDirty, numPages, numFrames, ps);
    NotifiedKeeps(es, c, p, Hot(es), Hot(Shift(es, e)), numPages, numFrames, ps);
    HotPageIs(e, p);
  }

  lemma HotPageIs(e: Entry, p: nat)
    ensures p in HotPage(e) <==> e.bsPage == p && e.isDirty
  {
  }

  /** The notifications of a miss change pins and dirty marks only; a page that was hot is marked. */
  lemma NotifiedKeeps(es: seq<Entry>, c: Cache, p: nat, hot: set<nat>, hot': set<nat>, numPages: nat, numFrames: nat, ps: nat)
    requires |es| == TLB_SIZE && Ok(c, numPages, numFrames, ps) && Coherent(c, hot) && p in c.frameOf
    requires es[TLB_SIZE - 1].bsPage < |c.pins|
    requires es[TLB_SIZE - 1].bsPage >= 0 ==> c.pins[es[TLB_SIZE - 1].bsPage] > 0
    requires forall q: nat :: q in hot ==> q in hot' || q in HotPage(es[TLB_SIZE - 1])
    ensures p < |c.pins|
    ensures var c' := Notified(es, c, p);
      && Ok(c', numPages, numFrames, ps) && Coherent(c', hot') && View(c') == View(c)
      && (forall q :: q in c.frameOf ==> Stays(c, c', q))
      && (forall q: nat :: q in hot && q in c.frameOf ==> q in hot' || q in c'.dirty)
  {
    var c' := Notified(es, c, p);
    assert View(c') == View(c);
    hide View, ByteSeqs.Uniform;
  }

  lemma MissHot(es: seq<Entry>, e: Entry)
    requires |es| == TLB_SIZE
    ensures forall q: nat :: q in Hot(es) ==> q in Hot(Shift(es, e)) || q in HotPage(es[TLB_SIZE - 1])
    ensures forall q: nat :: q in HotPage(e) ==> q in Hot(Shift(es, e))
  {
    hide Hot;
    var t := Shift(es, e);
    forall q: nat | q in Hot(es) ensures q in Hot(t) || q in HotPage(es[TLB_SIZE - 1]) {
      InHot(es, q);
      InHot(t, q);
      var j :| 0 <= j < |es| && q in HotPage(es[j]);
      if j < TLB_SIZE - 1 {
        assert t[j + 1] == es[j];
      }
    }
    forall q: nat | q in HotPage(e) ensures q in Hot(t) {
      InHot(t, q);
      assert t[0] == e;
    }
  }

  lemma NotifiedPins(es: seq<Entry>, c: Cache, p: nat)
    requires |es| == TLB_SIZE && p < |c.pins|
    requires es[TLB_SIZE - 1].bsPage < |c.pins| && es[TLB_SIZE - 1].bsPage != p
    requires es[TLB_SIZE - 1].bsPage >= 0 ==> c.pins[es[TLB_SIZE - 1].bsPage] > 0
    ensures var c' := Notified(es, c, p);
      && c'.frameOf == c.frameOf && |c'.pins| == |c.pins|
      && forall q :: 0 <= q < |c.pins| ==>
        c'.pins[q] == if q == p then c.pins[q] + 1 else if q == es[TLB_SIZE - 1].bsPage then c.pins[q] - 1 else c.pins[q]
  {
  }

  lemma AfterAt(pages: seq<nat>, p: nat)
    requires p !in pages && |pages| <= TLB_SIZE
    ensures var a := After(pages, p);
      && |a| == Min(TLB_SIZE, |pages| + 1)
      && forall i :: 0 <= i < |a| ==> a[i] == if i == 0 then p else pages[i - 1]
  {
  }

  lemma HoldsParts(es: seq<Entry>, pages: seq<nat>, c: Cache)
    ensures Holds(es, pages, c) <==>
      && |es| == TLB_SIZE && |pages| <= TLB_SIZE && Distinct(pages)
      && (forall i :: 0 <= i < |pages| ==> es[i].bsPage == pages[i])
      && (forall i :: |pages| <= i < TLB_SIZE ==> es[i].bsPage == -1)
      && (forall i :: 0 <= i < |pages| ==> pages[i] in c.frameOf && es[i].epcPage == c.frameOf[pages[i]])
      && (forall p :: 0 <= p < |c.pins| ==> c.pins[p] == if p in pages then 1 else 0)
  {
    hide Distinct;
  }

  lemma OldestIsOther(es: seq<Entry>, pages: seq<nat>, c: Cache, p: nat, numPages: nat, numFrames: nat, ps: nat)
    requires Holds(es, pages, c) && Ok(c, numPages, numFrames, ps) && p in c.frameOf && p !in pages
    ensures p < |c.pins| && es[TLB_SIZE - 1].bsPage != p
    ensures |pages| == TLB_SIZE ==> es[TLB_SIZE - 1].bsPage == pages[TLB_SIZE - 1]
    ensures |pages| < TLB_SIZE ==> es[TLB_SIZE - 1].bsPage == -1
  {
    HoldsOldest(es, pages, c, numPages, numFrames, ps);
    if |pages| == TLB_SIZE {
      assert pages[TLB_SIZE - 1] in pages;
    }
  }

  /** The pins after a miss. */
  lemma MissPins(es: seq<Entry>, pages: seq<nat>, c: Cache, p: nat)
    requires Holds(es, pages, c) && p !in pages && p < |c.pins|
    requires es[TLB_SIZE - 1].bsPage < |c.pins| && es[TLB_SIZE - 1].bsPage != p
    requires es[TLB_SIZE - 1].bsPage == if |pages| == TLB_SIZE then pages[TLB_SIZE - 1] else -1
    requires es[TLB_SIZE - 1].bsPage >= 0 ==> c.pins[es[TLB_SIZE - 1].bsPage] > 0
    ensures var c' := Notified(es, c, p);
      forall q :: 0 <= q < |c'.pins| ==> c'.pins[q] == if q in After(pages, p) then 1 else 0
  {
    NotifiedPins(es, c, p);
    HoldsParts(es, pages, c);
    hide *;
    var c' := Notified(es, c, p);
    forall q | 0 <= q < |c'.pins| ensures c'.pins[q] == if q in After(pages, p) then 1 else 0 {
      InAfter(pages, p, q);
    }
  }

  lemma ShiftAt(es: seq<Entry>, e: Entry)
    requires |es| == TLB_SIZE
    ensures |Shift(es, e)| == TLB_SIZE
    ensures forall i :: 0 <= i < TLB_SIZE ==> Shift(es, e)[i] == if i == 0 then e else es[i - 1]
  {
  }

  lemma AfterDistinct(pages: seq<nat>, p: nat)
    requires p !in pages && |pages| <= TLB_SIZE && Distinct(pages)
    ensures Distinct(After(pages, p)) && |After(pages, p)| <= TLB_SIZE
  {
    AfterAt(pages, p);
    hide After;
  }

  lemma MissHolds(es: seq<Entry>, pages: seq<nat>, c: Cache, p: nat, isDirty: bool, numPages: nat, numFrames: nat, ps: nat)
    requires Holds(es, pages, c) && Ok(c, numPages, numFrames, ps) && p in c.frameOf && p !in pages
    requires es[TLB_SIZE - 1].bsPage < |c.pins|
    requires es[TLB_SIZE - 1].bsPage >= 0 ==> c.pins[es[TLB_SIZE - 1].bsPage] > 0
    ensures Holds(Shift(es, Entry(p, c.frameOf[p], isDirty)), After(pages, p), Notified(es, c, p))
  {
    OldestIsOther(es, pages, c, p, numPages, numFrames, ps);
    MissPins(es, pages, c, p);
    NotifiedPins(es, c, p);
    AfterAt(pages, p);
    AfterDistinct(pages, p);
    ShiftAt(es, Entry(p, c.frameOf[p], isDirty));
    hide Ok, After, Notified, Dropped, Distinct, Shift;
  }

  lemma InAfter(pages: seq<nat>, p: nat, q: nat)
    requires p !in pages && Distinct(pages) && |pages| <= TLB_SIZE
    ensures q in After(pages, p) <==> q == p || (q in pages && !(|pages| == TLB_SIZE && q == pages[TLB_SIZE - 1]))
  {
    var a := After(pages, p);
    assert forall i :: 0 <= i < |a| ==> a[i] == if i == 0 then p else pages[i - 1];
    assert a[0] == p;
    if q in pages && !(|pages| == TLB_SIZE && q == pages[TLB_SIZE - 1]) {
      var i :| 0 <= i < |pages| && pages[i] == q;
      assert a[i + 1] == q;
    }
  }

  // ---------- What the buffer holds over a run ----------

  /** The pages of a buffer that started empty, after accesses to `ps`. */
  function Run(ps: seq<nat>): seq<nat> {
    if ps == [] then [] else After(Run(ps[..|ps| - 1]), ps[|ps| - 1])
  }

  /** The misses of a run, latest first. */
  function Misses(ps: seq<nat>): seq<nat> {
    if ps == [] then []
    else
      var k := |ps| - 1;
      if ps[k] in Run(ps[..k]) then Misses(ps[..k]) else [ps[k]] + Misses(ps[..k])
  }

  /** The buffer holds the last five misses in order, all distinct. */
  lemma {:induction false} LastMisses(ps: seq<nat>)
    ensures Run(ps) == Misses(ps)[..Min(5, |Misses(ps)|)] && Distinct(Run(ps))
    decreases |ps|
  {
    if ps != [] {
      LastMisses(ps[..|ps| - 1]);
    }
  }

  /** A page that missed is still there after four more misses, and only then leaves. */
  lemma SurvivesFourMisses(ps: seq<nat>, qs: seq<nat>, p: nat, k: nat)
    requires |ps| > 0 && p == ps[|ps| - 1] && p !in Run(ps[..|ps| - 1])
    requires |Misses(ps + qs)| == |Misses(ps)| + k
    requires p !in Misses(ps + qs)[..k]
    ensures p in Run(ps + qs) <==> k < 5
  {
    LastMisses(ps + qs);
    MissesGrow(ps, qs);
    var m := Misses(ps + qs);
    assert Misses(ps)[0] == p;
    assert m[k] == p;
    if k >= TLB_SIZE {
      assert Run(ps + qs) == m[..k][..TLB_SIZE];
    }
  }

  lemma {:induction false} MissesGrow(ps: seq<nat>, qs: seq<nat>)
    ensures |Misses(ps + qs)| >= |Misses(ps)|
    ensures Misses(ps + qs)[|Misses(ps + qs)| - |Misses(ps)|..] == Misses(ps)
    decreases |qs|
  {
    if qs == [] {
      assert ps + qs == ps;
    } else {
      var k := |qs| - 1;
      MissesGrow(ps, qs[..k]);
      assert (ps + qs)[..|ps + qs| - 1] == ps + qs[..k];
    }
  }

  /** A page is held through the next two accesses unless the first of them pushes it out: it was the
      oldest entry when it was accessed, and the next access misses. */
  lemma StaysForTwo(pages: seq<nat>, p: nat, q: nat)
    requires |pages| <= TLB_SIZE && Distinct(pages)
    ensures p in After(pages, p)
    ensures p in After(After(pages, p), q) <==> !(|pages| == TLB_SIZE && pages[TLB_SIZE - 1] == p && q !in pages)
  {
    var a := After(pages, p);
    if p !in pages {
      assert a[0] == p;
      assert After(a, q)[if q in a then 0 else 1] == p;
    } else if q !in pages {
      var b := After(pages, q);
      var i :| 0 <= i < |pages| && pages[i] == p;
      if i < TLB_SIZE - 1 {
        assert b[i + 1] == p;
      } else {
        assert forall j :: 0 <= j < |b| ==> b[j] == if j == 0 then q else pages[j - 1];
      }
    }
  }
}
