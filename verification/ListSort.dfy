/** The table's in-place merge sort: it relinks the application-order list, pass by pass. */
module ListSort {
  import opened MergeSort
  import opened HashElems
  import opened Modular

  /** The element at a position of the pass's input, as the input's links say. */
  ghost function At(cur: seq<Elem>, t: nat): Elem? {
    if t < |cur| then cur[t] else null
  }

  /** A list under construction: all links but the last `next` are in place. */
  ghost predicate Building(out: seq<Elem>)
    reads out`next, out`prev
  {
    && (forall i {:trigger out[i].next} :: 0 <= i < |out| - 1 ==> out[i].next == out[i + 1])
    && (forall i {:trigger out[i].prev} :: 0 <= i < |out| ==> out[i].prev == PrevIn(out, i))
  }

  /** What the pass has not consumed: `cur[pa..mid]` and `cur[qb..]`, still linked and not in `out`. */
  ghost predicate Rest(cur: seq<Elem>, pa: nat, mid: nat, qb: nat, out: seq<Elem>)
    reads cur`next
  {
    && (forall t {:trigger cur[t].next} :: 0 <= t < |cur| && (pa <= t < mid || qb <= t) ==> cur[t].next == At(cur, t + 1))
    && (forall t {:trigger cur[t]} :: 0 <= t < |cur| && (pa <= t < mid || qb <= t) ==> cur[t] !in out)
    && Inside(out, cur)
  }

  lemma RestAt(cur: seq<Elem>, pa: nat, mid: nat, qb: nat, out: seq<Elem>, t: nat)
    requires Rest(cur, pa, mid, qb, out) && t < |cur| && (pa <= t < mid || qb <= t)
    ensures cur[t].next == At(cur, t + 1) && cur[t] !in out
  {
  }

  /** Links an element in behind the sorted part. */
  method LinkLast(list: Elem?, tail: Elem?, e: Elem, ghost out: seq<Elem>) returns (list': Elem, tail': Elem)
    requires NoDup(out) && Building(out) && list == First(out) && tail == Last(out) && e !in out
    modifies out`next, e`prev
    ensures NoDup(out + [e]) && Building(out + [e]) && list' == First(out + [e]) && tail' == e
  {
    if tail != null {
      tail.next := e;
      list' := list;
    } else {
      list' := e;
    }
    e.prev := tail;
    tail' := e;
  }

  /** Moves element `t` of the input behind the sorted part. */
  method Emit(list: Elem?, tail: Elem?, e: Elem, ghost out: seq<Elem>, ghost cur: seq<Elem>,
              ghost pa: nat, ghost mid: nat, ghost qb: nat, ghost pa': nat, ghost qb': nat)
    returns (list': Elem, tail': Elem)
    requires NoDup(cur) && NoDup(out) && Building(out) && list == First(out) && tail == Last(out)
    requires pa <= mid <= qb <= |cur| && Rest(cur, pa, mid, qb, out)
    requires (pa < mid && e == cur[pa] && pa' == pa + 1 && qb' == qb) || (qb < |cur| && e == cur[qb] && pa' == pa && qb' == qb + 1)
    modifies cur`next, cur`prev
    ensures NoDup(out + [e]) && Building(out + [e]) && list' == First(out + [e]) && tail' == Last(out + [e])
    ensures Rest(cur, pa', mid, qb', out + [e])
  {
    hide Building;
    list', tail' := LinkLast(list, tail, e, out);
  }

  /** Steps over the first run of a merge. */
  method SkipRun(p: Elem, insize: nat, ghost cur: seq<Elem>, ghost pos: nat) returns (q: Elem?, psize: nat)
    requires insize > 0 && pos < |cur| && p == cur[pos]
    requires forall t {:trigger cur[t].next} :: pos <= t < |cur| ==> cur[t].next == At(cur, t + 1)
    ensures psize == Min(insize, |cur| - pos) && q == At(cur, pos + psize)
  {
    q, psize := p, 0;
    var i := 0;
    while i < insize
      invariant 0 <= i <= insize && psize == i && pos + i < |cur| && q == cur[pos + i]
    {
      psize := psize + 1;
      q := q.next;
      if q == null {
        break;
      }
      i := i + 1;
    }
  }

  lemma ConsumeP(cmp: Compare<Elem>, cur: seq<Elem>, pa: nat, mid: nat, qb: nat, n: nat)
    requires pa < mid <= qb <= n <= |cur| && (qb == n || cmp(cur[pa], cur[qb]) <= 0)
    ensures Merge(cmp, cur[pa..mid], cur[qb..n]) == [cur[pa]] + Merge(cmp, cur[pa + 1..mid], cur[qb..n])
  {
    assert cur[pa..mid][1..] == cur[pa + 1..mid];
    assert cur[pa..mid] == [cur[pa]] + cur[pa + 1..mid];
  }

  lemma ConsumeQ(cmp: Compare<Elem>, cur: seq<Elem>, pa: nat, mid: nat, qb: nat, n: nat)
    requires pa <= mid <= qb < n <= |cur| && (pa == mid || cmp(cur[pa], cur[qb]) > 0)
    ensures Merge(cmp, cur[pa..mid], cur[qb..n]) == [cur[qb]] + Merge(cmp, cur[pa..mid], cur[qb + 1..n])
  {
    assert cur[qb..n][1..] == cur[qb + 1..n];
    assert cur[qb..n] == [cur[qb]] + cur[qb + 1..n];
  }

  /** Takes the next element: from the other run if one is used up, from the first run on ties. */
  method Take(p0: Elem?, q0: Elem?, psize0: nat, qsize0: nat, insize: nat, cmp: Compare<Elem>, ghost cur: seq<Elem>,
              ghost pa: nat, ghost mid: nat, ghost qb: nat, ghost n: nat, ghost out: seq<Elem>)
    returns (e: Elem, p: Elem?, q: Elem?, psize: nat, qsize: nat, ghost pa': nat, ghost qb': nat)
    requires pa <= mid <= qb <= n <= |cur| && psize0 == mid - pa && qsize0 == insize - (qb - mid)
    requires (qsize0 != 0 && q0 != null) == (qb < n) && q0 == At(cur, qb)
    requires psize0 != 0 || qb < n
    requires (pa < mid ==> p0 == cur[pa]) && Rest(cur, pa, mid, qb, out)
    ensures pa' + qb' == pa + qb + 1 && pa <= pa' <= mid && qb <= qb' <= n
    ensures psize == mid - pa' && qsize == insize - (qb' - mid) && q == At(cur, qb')
    ensures e == (if pa' == pa then cur[qb] else cur[pa])
    ensures pa' < mid ==> p == cur[pa']
    ensures Merge(cmp, cur[pa..mid], cur[qb..n]) == [e] + Merge(cmp, cur[pa'..mid], cur[qb'..n])
  {
    hide Rest, Merge, Inside;
    p, q, psize, qsize, pa', qb' := p0, q0, psize0, qsize0, pa, qb;
    if psize == 0 {
      ConsumeQ(cmp, cur, pa, mid, qb, n);
      RestAt(cur, pa, mid, qb, out, qb);
      e := q;
      q := q.next;
      qsize := qsize - 1;
      qb' := qb + 1;
    } else if qsize == 0 || q == null {
      ConsumeP(cmp, cur, pa, mid, qb, n);
      RestAt(cur, pa, mid, qb, out, pa);
      e := p;
      p := p.next;
      psize := psize - 1;
      pa' := pa + 1;
    } else if cmp(p, q) <= 0 {
      ConsumeP(cmp, cur, pa, mid, qb, n);
      RestAt(cur, pa, mid, qb, out, pa);
      e := p;
      p := p.next;
      psize := psize - 1;
      pa' := pa + 1;
    } else {
      ConsumeQ(cmp, cur, pa, mid, qb, n);
      RestAt(cur, pa, mid, qb, out, qb);
      e := q;
      q := q.next;
      qsize := qsize - 1;
      qb' := qb + 1;
    }
  }

  /** Merges the run at `first` with the run at `second`. */
  method MergeRuns(list: Elem?, tail: Elem?, first: Elem?, second: Elem?, size: nat, insize: nat, cmp: Compare<Elem>,
                   ghost cur: seq<Elem>, ghost pos: nat, ghost out: seq<Elem>)
    returns (list': Elem?, tail': Elem?, q: Elem?, ghost r: seq<Elem>)
    requires NoDup(cur) && pos < |cur| && size == Min(insize, |cur| - pos)
    requires first == At(cur, pos) && second == At(cur, pos + size)
    requires NoDup(out) && Building(out) && Rest(cur, pos, pos, pos, out) && list == First(out) && tail == Last(out)
    modifies cur`next, cur`prev
    ensures var mid, n := pos + Min(insize, |cur| - pos), pos + Min(2 * insize, |cur| - pos);
      && r == out + Merge(cmp, cur[pos..mid], cur[mid..n])
      && q == At(cur, n) && Rest(cur, n, n, n, r)
    ensures NoDup(r) && Building(r) && list' == First(r) && tail' == Last(r)
  {
    hide *;
    MinParts(insize, |cur| - pos);
    AtParts(cur);
    RestFrom(cur, pos, size, out);
    list', tail', q, r := list, tail, second, out;
    var p, psize, qsize := first, size, insize;
    ghost var mid, n := pos + size, pos + Min(2 * insize, |cur| - pos);
    ghost var pa, qb := pos, mid;
    while psize != 0 || (qsize != 0 && q != null)
      invariant pos <= pa <= mid <= qb <= n <= |cur| && psize == mid - pa
      invariant (qsize != 0 && q != null) == (qb < n) && q == At(cur, qb)
      invariant qsize == insize - (qb - mid)
      invariant pa < mid ==> p == cur[pa]
      invariant r + Merge(cmp, cur[pa..mid], cur[qb..n]) == out + Merge(cmp, cur[pos..mid], cur[mid..n])
      invariant NoDup(r) && Building(r) && Rest(cur, pa, mid, qb, r) && list' == First(r) && tail' == Last(r)
      decreases mid - pa + n - qb
    {
      var e;
      ghost var pa', qb';
      e, p, q, psize, qsize, pa', qb' := Take(p, q, psize, qsize, insize, cmp, cur, pa, mid, qb, n, r);
      list', tail' := Emit(list', tail', e, r, cur, pa, mid, qb, pa', qb');
      Assoc(r, [e], Merge(cmp, cur[pa'..mid], cur[qb'..n]));
      r, pa, qb := r + [e], pa', qb';
    }
    RestDone(cur, mid, n, r);
    assert Merge(cmp, cur[mid..mid], cur[n..n]) == [] by { NothingLeft(cmp, cur, mid, n); }
  }

  lemma MinParts(k: nat, n: nat)
    ensures Min(k, n) == (if k < n then k else n) && Min(2 * k, n) == (if 2 * k < n then 2 * k else n)
  {
  }

  lemma AtParts(cur: seq<Elem>)
    ensures forall t: nat :: At(cur, t) == if t < |cur| then cur[t] else null
  {
  }

  lemma NothingLeft(cmp: Compare<Elem>, cur: seq<Elem>, mid: nat, n: nat)
    requires mid <= |cur| && n <= |cur|
    ensures Merge(cmp, cur[mid..mid], cur[n..n]) == []
  {
  }

  lemma RestFrom(cur: seq<Elem>, pos: nat, size: nat, out: seq<Elem>)
    requires Rest(cur, pos, pos, pos, out)
    ensures Rest(cur, pos, pos + size, pos + size, out)
  {
  }

  lemma RestDone(cur: seq<Elem>, mid: nat, n: nat, out: seq<Elem>)
    requires Rest(cur, mid, mid, n, out)
    ensures Rest(cur, n, n, n, out)
  {
  }

  lemma PassStep(cmp: Compare<Elem>, s: seq<Elem>, k: nat)
    requires k > 0 && s != []
    ensures var m, n := Min(k, |s|), Min(2 * k, |s|);
      Pass(cmp, s, k) == Merge(cmp, s[..m], s[m..n]) + Pass(cmp, s[n..], k)
    ensures Merges(|s|, k) == 1 + Merges(|s| - Min(2 * k, |s|), k)
  {
    hide Merge;
  }

  lemma PassUnfold(cmp: Compare<Elem>, cur: seq<Elem>, pos: nat, mid: nat, n: nat, k: nat)
    requires k > 0 && pos < |cur| && mid == pos + Min(k, |cur| - pos) && n == pos + Min(2 * k, |cur| - pos)
    requires pos <= mid <= n <= |cur|
    ensures Pass(cmp, cur[pos..], k) == Merge(cmp, cur[pos..mid], cur[mid..n]) + Pass(cmp, cur[n..], k)
    ensures Merges(|cur| - pos, k) == 1 + Merges(|cur| - n, k)
  {
    hide *;
    PassStep(cmp, cur[pos..], k);
    Slices(cur, pos, mid - pos, n - pos);
  }

  lemma Slices<T>(s: seq<T>, pos: nat, m: nat, n: nat)
    requires pos <= |s| && m <= n <= |s| - pos
    ensures s[pos..][..m] == s[pos..pos + m] && s[pos..][m..n] == s[pos + m..pos + n] && s[pos..][n..] == s[pos + n..]
  {
  }

  lemma RestLinked(cur: seq<Elem>, pos: nat, out: seq<Elem>)
    requires Rest(cur, pos, pos, pos, out)
    ensures forall t {:trigger cur[t].next} :: pos <= t < |cur| ==> cur[t].next == At(cur, t + 1)
  {
  }

  lemma RestOf(cur: seq<Elem>)
    requires Linked(cur)
    ensures Rest(cur, 0, 0, 0, []) && Building([])
  {
  }

  /** One pass over the list: neighbouring runs of `insize` elements are merged. */
  method OnePass(first: Elem, insize: nat, cmp: Compare<Elem>, ghost cur: seq<Elem>)
    returns (list: Elem, tail: Elem, nmerges: nat)
    requires insize > 0 && cur != [] && first == cur[0] && NoDup(cur) && Linked(cur)
    modifies cur`next, cur`prev
    ensures var r := Pass(cmp, cur, insize); NoDup(r) && Linked(r) && list == First(r) && tail == Last(r)
    ensures nmerges == Merges(|cur|, insize)
  {
    hide Building, Rest, NoDup, Linked, Last, Merge, Pass, Merges;
    var p: Elem? := first;
    var list', tail': Elem? := null, null;
    nmerges := 0;
    ghost var pos, out := 0, [];
    RestOf(cur);
    LastOf([]);
    assert cur[0..] == cur;
    while p != null
      invariant pos <= |cur| && p == At(cur, pos)
      invariant NoDup(out) && Building(out) && Rest(cur, pos, pos, pos, out) && list' == First(out) && tail' == Last(out)
      invariant out + Pass(cmp, cur[pos..], insize) == Pass(cmp, cur, insize)
      invariant nmerges + Merges(|cur| - pos, insize) == Merges(|cur|, insize)
      decreases |cur| - pos
    {
      ghost var mid, n := pos + Min(insize, |cur| - pos), pos + Min(2 * insize, |cur| - pos);
      PassUnfold(cmp, cur, pos, mid, n, insize);
      nmerges := nmerges + 1;
      RestLinked(cur, pos, out);
      var q, psize := SkipRun(p, insize, cur, pos);
      ghost var was := out;
      list', tail', p, out := MergeRuns(list', tail', p, q, psize, insize, cmp, cur, pos, out);
      Assoc(was, Merge(cmp, cur[pos..mid], cur[mid..n]), Pass(cmp, cur[n..], insize));
      pos := n;
    }
    PassDone(cmp, cur, pos, insize, out);
    LastOf(out);
    RestInside(cur, pos, out);
    list, tail := list', tail';
    CloseList(tail, out);
  }

  lemma RestInside(cur: seq<Elem>, pos: nat, out: seq<Elem>)
    requires Rest(cur, pos, pos, pos, out)
    ensures Inside(out, cur)
  {
  }

  lemma LastOf(out: seq<Elem>)
    ensures out != [] ==> Last(out) == out[|out| - 1]
    ensures out == [] ==> Last(out) == null
    ensures NoDup([])
  {
  }

  method CloseList(tail: Elem, ghost out: seq<Elem>)
    requires out != [] && tail == out[|out| - 1] && NoDup(out) && Building(out)
    modifies tail`next
    ensures Linked(out)
  {
    tail.next := null;
  }

  lemma PassDone(cmp: Compare<Elem>, cur: seq<Elem>, pos: nat, k: nat, out: seq<Elem>)
    requires k > 0 && pos == |cur| > 0 && out + Pass(cmp, cur[pos..], k) == Pass(cmp, cur, k)
    ensures out == Pass(cmp, cur, k) && out != [] && Merges(|cur| - pos, k) == 0
  {
  }

  /** Sorts a list in place: passes with doubled run length until one merge is enough. */
  method Sort(head: Elem, cmp: Compare<Elem>, ghost s: seq<Elem>) returns (list: Elem, tail: Elem)
    requires s != [] && head == s[0] && NoDup(s) && Linked(s)
    modifies s`next, s`prev
    ensures var r := SortFrom(cmp, s, 1); NoDup(r) && Linked(r) && list == First(r) && tail == Last(r)
  {
    var insize, looping := 1, true;
    list, tail := head, head;
    ghost var cur := s;
    while looping
      invariant insize > 0 && cur != [] && list == cur[0] && NoDup(cur) && Linked(cur) && multiset(cur) == multiset(s)
      invariant looping ==> SortFrom(cmp, cur, insize) == SortFrom(cmp, s, 1)
      invariant !looping ==> cur == SortFrom(cmp, s, 1) && tail == Last(cur)
      decreases looping, |s| - insize
    {
      var nmerges;
      SameElems(cur, s);
      list, tail, nmerges := OnePass(list, insize, cmp, cur);
      PassPermutes(cmp, cur, insize);
      ghost var next := Pass(cmp, cur, insize);
      SortUnfold(cmp, cur, insize);
      SameSize(cur, s);
      if nmerges <= 1 {
        looping := false;
      }
      insize := insize * 2;
      cur := next;
    }
  }

  lemma SortUnfold(cmp: Compare<Elem>, cur: seq<Elem>, k: nat)
    requires k > 0
    ensures var t := Pass(cmp, cur, k);
      SortFrom(cmp, cur, k) == if Merges(|cur|, k) <= 1 then t else SortFrom(cmp, t, 2 * k)
    ensures Merges(|cur|, k) > 1 ==> |cur| > 2 * k
  {
    if Merges(|cur|, k) > 1 {
      SeveralMerges(|cur|, k);
    }
  }

  lemma SameElems(a: seq<Elem>, b: seq<Elem>)
    requires multiset(a) == multiset(b)
    ensures Inside(a, b) && Inside(b, a)
  {
    forall i | 0 <= i < |a| ensures a[i] in b {
      assert a[i] in multiset(b);
    }
    forall i | 0 <= i < |b| ensures b[i] in a {
      assert b[i] in multiset(a);
    }
  }

  lemma SameSize(a: seq<Elem>, b: seq<Elem>)
    requires multiset(a) == multiset(b)
    ensures |a| == |b|
  {
    assert |multiset(a)| == |a| && |multiset(b)| == |b|;
  }
}
