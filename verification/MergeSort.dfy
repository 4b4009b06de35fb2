/** The order that the table's bottom-up merge sort produces, as a function, and its correctness:
    a sorted, stable permutation. */
module MergeSort {
  import opened Modular

  type Compare<!T> = (T, T) -> int

  /** Merging takes from the first run on ties. */
  function Merge<T>(cmp: Compare<T>, a: seq<T>, b: seq<T>): (r: seq<T>)
    ensures |r| == |a| + |b|
    decreases |a| + |b|
  {
    if a == [] then b
    else if b == [] then a
    else if cmp(a[0], b[0]) <= 0 then [a[0]] + Merge(cmp, a[1..], b)
    else [b[0]] + Merge(cmp, a, b[1..])
  }

  lemma {:induction false} MergePermutes<T>(cmp: Compare<T>, a: seq<T>, b: seq<T>)
    ensures multiset(Merge(cmp, a, b)) == multiset(a) + multiset(b)
    decreases |a| + |b|
  {
    if a != [] && b != [] {
      if cmp(a[0], b[0]) <= 0 {
        assert a == [a[0]] + a[1..];
        MergePermutes(cmp, a[1..], b);
      } else {
        assert b == [b[0]] + b[1..];
        MergePermutes(cmp, a, b[1..]);
      }
    }
  }

  /** One pass: neighbouring runs of length `k` are merged. */
  function Pass<T>(cmp: Compare<T>, s: seq<T>, k: nat): (r: seq<T>)
    requires k > 0
    ensures |r| == |s|
    decreases |s|
  {
    if s == [] then []
    else
      var m, n := Min(k, |s|), Min(2 * k, |s|);
      Merge(cmp, s[..m], s[m..n]) + Pass(cmp, s[n..], k)
  }

  lemma {:induction false} PassPermutes<T>(cmp: Compare<T>, s: seq<T>, k: nat)
    requires k > 0
    ensures multiset(Pass(cmp, s, k)) == multiset(s)
    decreases |s|
  {
    if s != [] {
      var m, n := Min(k, |s|), Min(2 * k, |s|);
      assert s == s[..m] + s[m..n] + s[n..];
      MergePermutes(cmp, s[..m], s[m..n]);
      PassPermutes(cmp, s[n..], k);
    }
  }

  /** The number of merges of a pass. */
  function Merges(n: nat, k: nat): nat
    requires k > 0
  {
    if n == 0 then 0 else 1 + Merges(n - Min(2 * k, n), k)
  }

  lemma {:induction false} MergesIsCeil(n: nat, k: nat)
    requires k > 0
    ensures 2 * k * Merges(n, k) >= n && (n > 0 ==> 2 * k * (Merges(n, k) - 1) < n)
    decreases n
  {
    if n > 0 {
      var rest := n - Min(2 * k, n);
      MergesIsCeil(rest, k);
      assert 2 * k * Merges(n, k) == 2 * k * Merges(rest, k) + 2 * k;
      if rest == 0 {
        assert Merges(rest, k) == 0;
      } else {
        assert 2 * k * (Merges(n, k) - 1) == 2 * k * (Merges(rest, k) - 1) + 2 * k;
      }
    }
  }

  lemma SeveralMerges(n: nat, k: nat)
    requires k > 0 && Merges(n, k) > 1
    ensures n > 2 * k
  {
    MergesIsCeil(n, k);
    assert 2 * k * (Merges(n, k) - 1) >= 2 * k * 1;
  }

  /** Passes with doubled run length until one merge is enough. */
  function SortFrom<T>(cmp: Compare<T>, s: seq<T>, k: nat): (r: seq<T>)
    requires k > 0
    ensures |r| == |s|
    decreases |s| - k
  {
    var t := Pass(cmp, s, k);
    if Merges(|s|, k) <= 1 then t
    else
      assert |s| > 2 * k by { SeveralMerges(|s|, k); }
      SortFrom(cmp, t, 2 * k)
  }

  lemma {:induction false} SortPermutes<T>(cmp: Compare<T>, s: seq<T>, k: nat)
    requires k > 0
    ensures multiset(SortFrom(cmp, s, k)) == multiset(s)
    decreases |s| - k
  {
    PassPermutes(cmp, s, k);
    if Merges(|s|, k) > 1 {
      SeveralMerges(|s|, k);
      SortPermutes(cmp, Pass(cmp, s, k), 2 * k);
    }
  }

  // ---------- Sortedness ----------

  /** The comparison is a total preorder on the items of `dom`. */
  ghost predicate Preorder<T>(cmp: Compare<T>, dom: set<T>) {
    && (forall x, y :: x in dom && y in dom ==> (cmp(x, y) > 0 <==> cmp(y, x) < 0))
    && (forall x, y, z :: x in dom && y in dom && z in dom && cmp(x, y) <= 0 && cmp(y, z) <= 0 ==> cmp(x, z) <= 0)
  }

  lemma Trans<T>(cmp: Compare<T>, dom: set<T>, x: T, y: T, z: T)
    requires Preorder(cmp, dom) && x in dom && y in dom && z in dom
    requires cmp(x, y) <= 0 && cmp(y, z) <= 0
    ensures cmp(x, z) <= 0
  {
  }

  lemma Flip<T>(cmp: Compare<T>, dom: set<T>, x: T, y: T)
    requires Preorder(cmp, dom) && x in dom && y in dom
    ensures (cmp(x, y) > 0 <==> cmp(y, x) < 0) && (cmp(x, y) < 0 <==> cmp(y, x) > 0)
  {
  }

  ghost predicate Within<T>(s: seq<T>, dom: set<T>) {
    forall i :: 0 <= i < |s| ==> s[i] in dom
  }

  ghost predicate Sorted<T>(cmp: Compare<T>, s: seq<T>) {
    forall i, j :: 0 <= i < j < |s| ==> cmp(s[i], s[j]) <= 0
  }

  function Tie<T>(cmp: Compare<T>, h: T, x: T): seq<T> {
    if cmp(x, h) == 0 then [h] else []
  }

  /** The items that compare equal to `x`, in order. */
  function Ties<T>(cmp: Compare<T>, s: seq<T>, x: T): seq<T> {
    if s == [] then [] else Tie(cmp, s[0], x) + Ties(cmp, s[1..], x)
  }

  lemma TiesCons<T>(cmp: Compare<T>, h: T, t: seq<T>, x: T)
    ensures Ties(cmp, [h] + t, x) == Tie(cmp, h, x) + Ties(cmp, t, x)
  {
    hide Tie;
    assert ([h] + t)[1..] == t;
  }

  lemma Assoc<T>(a: seq<T>, b: seq<T>, c: seq<T>)
    ensures (a + b) + c == a + (b + c)
  {
  }

  lemma {:induction false} TiesAppend<T>(cmp: Compare<T>, a: seq<T>, b: seq<T>, x: T)
    ensures Ties(cmp, a + b, x) == Ties(cmp, a, x) + Ties(cmp, b, x)
    decreases |a|
  {
    if a == [] {
      assert a + b == b;
      assert Ties(cmp, a, x) == [];
    } else {
      hide *;
      var h, t := a[0], a[1..];
      assert a == [h] + t;
      Assoc([h], t, b);
      TiesCons(cmp, h, t, x);
      TiesCons(cmp, h, t + b, x);
      TiesAppend(cmp, t, b, x);
      Assoc(Tie(cmp, h, x), Ties(cmp, t, x), Ties(cmp, b, x));
    }
  }

  lemma {:induction false} NoTies<T>(cmp: Compare<T>, s: seq<T>, x: T)
    requires forall i :: 0 <= i < |s| ==> cmp(x, s[i]) != 0
    ensures Ties(cmp, s, x) == []
    decreases |s|
  {
    if s != [] {
      NoTies(cmp, s[1..], x);
    }
  }

  lemma {:induction false} MergeWithin<T>(cmp: Compare<T>, a: seq<T>, b: seq<T>, dom: set<T>)
    requires Within(a, dom) && Within(b, dom)
    ensures Within(Merge(cmp, a, b), dom)
    decreases |a| + |b|
  {
    if a != [] && b != [] {
      if cmp(a[0], b[0]) <= 0 {
        MergeWithin(cmp, a[1..], b, dom);
      } else {
        MergeWithin(cmp, a, b[1..], dom);
      }
    }
  }

  /** `h` is not above any item of `s`. */
  ghost predicate Below<T>(cmp: Compare<T>, h: T, s: seq<T>) {
    forall i :: 0 <= i < |s| ==> cmp(h, s[i]) <= 0
  }

  lemma {:induction false} MergeBelow<T>(cmp: Compare<T>, h: T, a: seq<T>, b: seq<T>)
    requires Below(cmp, h, a) && Below(cmp, h, b)
    ensures Below(cmp, h, Merge(cmp, a, b))
    decreases |a| + |b|
  {
    if a != [] && b != [] {
      if cmp(a[0], b[0]) <= 0 {
        MergeBelow(cmp, h, a[1..], b);
      } else {
        MergeBelow(cmp, h, a, b[1..]);
      }
    }
  }

  lemma BelowSorted<T>(cmp: Compare<T>, dom: set<T>, h: T, s: seq<T>)
    requires Preorder(cmp, dom) && h in dom && Within(s, dom) && Sorted(cmp, s)
    requires s != [] && cmp(h, s[0]) <= 0
    ensures Below(cmp, h, s)
  {
    hide Preorder;
    forall i | 0 <= i < |s| ensures cmp(h, s[i]) <= 0 {
      if i > 0 {
        Trans(cmp, dom, h, s[0], s[i]);
      }
    }
  }

  lemma {:induction false} MergeSorted<T>(cmp: Compare<T>, dom: set<T>, a: seq<T>, b: seq<T>)
    requires Preorder(cmp, dom) && Within(a, dom) && Within(b, dom) && Sorted(cmp, a) && Sorted(cmp, b)
    ensures Sorted(cmp, Merge(cmp, a, b))
    decreases |a| + |b|
  {
    hide Preorder;
    if a != [] && b != [] {
      if cmp(a[0], b[0]) <= 0 {
        MergeSorted(cmp, dom, a[1..], b);
        BelowSorted(cmp, dom, a[0], b);
        MergeBelow(cmp, a[0], a[1..], b);
      } else {
        Flip(cmp, dom, a[0], b[0]);
        MergeSorted(cmp, dom, a, b[1..]);
        BelowSorted(cmp, dom, b[0], a);
        MergeBelow(cmp, b[0], a, b[1..]);
      }
    }
  }

  lemma MergeUnfold<T>(cmp: Compare<T>, a: seq<T>, b: seq<T>)
    requires a != [] && b != []
    ensures Merge(cmp, a, b) ==
      if cmp(a[0], b[0]) <= 0 then [a[0]] + Merge(cmp, a[1..], b) else [b[0]] + Merge(cmp, a, b[1..])
  {
  }

  lemma {:induction false} MergeStable<T>(cmp: Compare<T>, dom: set<T>, a: seq<T>, b: seq<T>, x: T)
    requires Preorder(cmp, dom) && Within(a, dom) && Within(b, dom) && x in dom && Sorted(cmp, a) && Sorted(cmp, b)
    ensures Ties(cmp, Merge(cmp, a, b), x) == Ties(cmp, a, x) + Ties(cmp, b, x)
    decreases |a| + |b|
  {
    if a == [] || b == [] {
      hide Preorder, Within, Sorted;
      assert Ties(cmp, [], x) == [];
    } else {
      hide Preorder, Ties, Merge, Tie;
      var g, h, s, t := a[0], b[0], a[1..], b[1..];
      MergeUnfold(cmp, a, b);
      assert a == [g] + s && b == [h] + t;
      if cmp(g, h) <= 0 {
        MergeStable(cmp, dom, s, b, x);
        TiesCons(cmp, g, s, x);
        TiesCons(cmp, g, Merge(cmp, s, b), x);
        Assoc(Tie(cmp, g, x), Ties(cmp, s, x), Ties(cmp, b, x));
      } else {
        MergeStable(cmp, dom, a, t, x);
        TiesCons(cmp, h, t, x);
        TiesCons(cmp, h, Merge(cmp, a, t), x);
        TieCommutes(cmp, dom, a, h, x);
        Assoc(Tie(cmp, h, x), Ties(cmp, a, x), Ties(cmp, t, x));
        Assoc(Ties(cmp, a, x), Tie(cmp, h, x), Ties(cmp, t, x));
      }
    }
  }

  /** An item taken before a run of greater items ties with nothing in the run. */
  lemma TieCommutes<T>(cmp: Compare<T>, dom: set<T>, a: seq<T>, h: T, x: T)
    requires Preorder(cmp, dom) && Within(a, dom) && h in dom && x in dom && Sorted(cmp, a)
    requires a != [] && cmp(a[0], h) > 0
    ensures Tie(cmp, h, x) + Ties(cmp, a, x) == Ties(cmp, a, x) + Tie(cmp, h, x)
  {
    hide Preorder, Ties;
    if cmp(x, h) == 0 {
      forall i | 0 <= i < |a| ensures cmp(x, a[i]) != 0 {
        AboveHead(cmp, dom, a, h, x, i);
      }
      NoTies(cmp, a, x);
    }
  }

  lemma AboveHead<T>(cmp: Compare<T>, dom: set<T>, a: seq<T>, h: T, x: T, i: nat)
    requires Preorder(cmp, dom) && Within(a, dom) && h in dom && x in dom && Sorted(cmp, a) && i < |a|
    requires cmp(a[0], h) > 0 && cmp(x, h) == 0
    ensures cmp(x, a[i]) != 0
  {
    hide Preorder;
    BelowSortedHead(cmp, dom, a, i);
    Flip(cmp, dom, x, a[i]);
    if cmp(a[i], x) <= 0 {
      Trans(cmp, dom, a[0], a[i], x);
      Trans(cmp, dom, a[0], x, h);
    }
  }

  lemma BelowSortedHead<T>(cmp: Compare<T>, dom: set<T>, a: seq<T>, i: nat)
    requires Preorder(cmp, dom) && Within(a, dom) && Sorted(cmp, a) && i < |a|
    ensures cmp(a[0], a[i]) <= 0
  {
    if i == 0 {
      assert !(cmp(a[0], a[0]) > 0);
    }
  }

  /** Every run of length `k` is sorted. */
  ghost predicate Runs<T>(cmp: Compare<T>, s: seq<T>, k: nat)
    requires k > 0
    decreases |s|
  {
    s == [] || (Sorted(cmp, s[..Min(k, |s|)]) && Runs(cmp, s[Min(k, |s|)..], k))
  }

  lemma {:induction false} RunsOfOne<T>(cmp: Compare<T>, s: seq<T>)
    ensures Runs(cmp, s, 1)
    decreases |s|
  {
    if s != [] {
      RunsOfOne(cmp, s[1..]);
    }
  }

  /** The two runs that a merge starts from. */
  lemma FirstRuns<T>(cmp: Compare<T>, s: seq<T>, k: nat)
    requires k > 0 && s != [] && Runs(cmp, s, k)
    ensures var m, n := Min(k, |s|), Min(2 * k, |s|);
      Sorted(cmp, s[..m]) && Sorted(cmp, s[m..n]) && Runs(cmp, s[n..], k)
  {
    var m, n := Min(k, |s|), Min(2 * k, |s|);
    var t := s[m..];
    if t != [] {
      assert t[..Min(k, |t|)] == s[m..n];
      assert t[Min(k, |t|)..] == s[n..];
    }
  }

  /** A pass doubles the length of the sorted runs and keeps ties in order. */
  lemma {:induction false} PassRuns<T>(cmp: Compare<T>, dom: set<T>, s: seq<T>, k: nat)
    requires k > 0 && Runs(cmp, s, k) && Preorder(cmp, dom) && Within(s, dom)
    ensures Runs(cmp, Pass(cmp, s, k), 2 * k)
    decreases |s|
  {
    hide Preorder, Sorted;
    if s != [] {
      var m, n := Min(k, |s|), Min(2 * k, |s|);
      FirstRuns(cmp, s, k);
      MergeSorted(cmp, dom, s[..m], s[m..n]);
      PassRuns(cmp, dom, s[n..], k);
      var r := Pass(cmp, s, k);
      assert r[..n] == Merge(cmp, s[..m], s[m..n]) && r[n..] == Pass(cmp, s[n..], k);
    }
  }

  lemma {:induction false} PassStable<T>(cmp: Compare<T>, dom: set<T>, s: seq<T>, k: nat, x: T)
    requires k > 0 && Runs(cmp, s, k) && Preorder(cmp, dom) && Within(s, dom) && x in dom
    ensures Ties(cmp, Pass(cmp, s, k), x) == Ties(cmp, s, x)
    decreases |s|
  {
    hide Preorder, Sorted;
    if s != [] {
      var m, n := Min(k, |s|), Min(2 * k, |s|);
      FirstRuns(cmp, s, k);
      MergeStable(cmp, dom, s[..m], s[m..n], x);
      PassStable(cmp, dom, s[n..], k, x);
      TiesOfThree(cmp, s, m, n, x);
      hide Ties, Runs;
      TiesAppend(cmp, Merge(cmp, s[..m], s[m..n]), Pass(cmp, s[n..], k), x);
    }
  }

  lemma SplitAt<T>(s: seq<T>, n: nat)
    requires n <= |s|
    ensures s[..n] + s[n..] == s
  {
  }

  lemma TiesOfThree<T>(cmp: Compare<T>, s: seq<T>, m: nat, n: nat, x: T)
    requires m <= n <= |s|
    ensures Ties(cmp, s, x) == Ties(cmp, s[..m], x) + Ties(cmp, s[m..n], x) + Ties(cmp, s[n..], x)
  {
    hide *;
    SplitAt(s, n);
    TiesAppend(cmp, s[..n], s[n..], x);
    SplitAt(s[..n], m);
    assert s[..n][..m] == s[..m] && s[..n][m..] == s[m..n];
    TiesAppend(cmp, s[..m], s[m..n], x);
  }

  lemma PassWithin<T>(cmp: Compare<T>, dom: set<T>, s: seq<T>, k: nat)
    requires k > 0 && Within(s, dom)
    ensures Within(Pass(cmp, s, k), dom)
  {
    PassPermutes(cmp, s, k);
    var r := Pass(cmp, s, k);
    forall i | 0 <= i < |r| ensures r[i] in dom {
      assert r[i] in multiset(r);
      assert r[i] in s;
    }
  }

  lemma {:induction false} SortFromSorted<T>(cmp: Compare<T>, dom: set<T>, s: seq<T>, k: nat)
    requires k > 0 && Runs(cmp, s, k) && Preorder(cmp, dom) && Within(s, dom)
    ensures Sorted(cmp, SortFrom(cmp, s, k))
    decreases |s| - k
  {
    hide Preorder, Sorted;
    PassRuns(cmp, dom, s, k);
    PassWithin(cmp, dom, s, k);
    var t := Pass(cmp, s, k);
    if Merges(|s|, k) <= 1 {
      OneRun(cmp, t, k);
    } else {
      SeveralMerges(|s|, k);
      SortFromSorted(cmp, dom, t, 2 * k);
    }
  }

  lemma OneRun<T>(cmp: Compare<T>, t: seq<T>, k: nat)
    requires k > 0 && Merges(|t|, k) <= 1 && Runs(cmp, t, 2 * k)
    ensures Sorted(cmp, t)
  {
    MergesIsCeil(|t|, k);
    if t != [] {
      assert 2 * k * Merges(|t|, k) <= 2 * k;
      assert t[..Min(2 * k, |t|)] == t;
    }
  }

  lemma {:induction false} SortFromStable<T>(cmp: Compare<T>, dom: set<T>, s: seq<T>, k: nat, x: T)
    requires k > 0 && Runs(cmp, s, k) && Preorder(cmp, dom) && Within(s, dom) && x in dom
    ensures Ties(cmp, SortFrom(cmp, s, k), x) == Ties(cmp, s, x)
    decreases |s| - k
  {
    hide Preorder, Sorted;
    PassRuns(cmp, dom, s, k);
    PassStable(cmp, dom, s, k, x);
    PassWithin(cmp, dom, s, k);
    if Merges(|s|, k) > 1 {
      SeveralMerges(|s|, k);
      SortFromStable(cmp, dom, Pass(cmp, s, k), 2 * k, x);
    }
  }

  /** The sort returns its items in order, ties in their old order. */
  lemma SortIsStable<T>(cmp: Compare<T>, dom: set<T>, s: seq<T>)
    requires Preorder(cmp, dom) && Within(s, dom)
    ensures var r := SortFrom(cmp, s, 1);
      && multiset(r) == multiset(s) && Sorted(cmp, r)
      && forall x :: x in dom ==> Ties(cmp, r, x) == Ties(cmp, s, x)
  {
    SortPermutes(cmp, s, 1);
    RunsOfOne(cmp, s);
    SortFromSorted(cmp, dom, s, 1);
    forall x | x in dom ensures Ties(cmp, SortFrom(cmp, s, 1), x) == Ties(cmp, s, x) {
      SortFromStable(cmp, dom, s, 1, x);
    }
  }
}
