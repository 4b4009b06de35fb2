/** Insertion into an ordered list: before the first greater item, so behind all equal ones. */
module OrderedInsert {
  import opened MergeSort

  function Insert<T>(cmp: Compare<T>, s: seq<T>, x: T): seq<T> {
    if s == [] then [x]
    else if cmp(s[0], x) > 0 then [x] + s
    else [s[0]] + Insert(cmp, s[1..], x)
  }

  lemma {:induction false} InsertAt<T>(cmp: Compare<T>, s: seq<T>, x: T, k: nat)
    requires k <= |s| && (k < |s| ==> cmp(s[k], x) > 0)
    requires forall i :: 0 <= i < k ==> cmp(s[i], x) <= 0
    ensures Insert(cmp, s, x) == s[..k] + [x] + s[k..]
    decreases k
  {
    if k > 0 {
      InsertAt(cmp, s[1..], x, k - 1);
      assert s[..k] == [s[0]] + s[1..][..k - 1];
    } else {
      assert s == s[0..];
    }
  }

  lemma {:induction false} InsertBelow<T>(cmp: Compare<T>, h: T, s: seq<T>, x: T)
    requires Below(cmp, h, s) && cmp(h, x) <= 0
    ensures Below(cmp, h, Insert(cmp, s, x))
    decreases |s|
  {
    if s != [] && cmp(s[0], x) <= 0 {
      InsertBelow(cmp, h, s[1..], x);
    }
  }

  lemma {:induction false} InsertSorted<T>(cmp: Compare<T>, dom: set<T>, s: seq<T>, x: T)
    requires Preorder(cmp, dom) && Within(s, dom) && x in dom && Sorted(cmp, s)
    ensures Sorted(cmp, Insert(cmp, s, x)) && Within(Insert(cmp, s, x), dom)
    decreases |s|
  {
    hide Preorder;
    if s != [] {
      if cmp(s[0], x) > 0 {
        Flip(cmp, dom, s[0], x);
        BelowSorted(cmp, dom, x, s);
      } else {
        InsertSorted(cmp, dom, s[1..], x);
        InsertBelow(cmp, s[0], s[1..], x);
      }
    }
  }

  lemma {:induction false} InsertTies<T>(cmp: Compare<T>, dom: set<T>, s: seq<T>, x: T, y: T)
    requires Preorder(cmp, dom) && Within(s, dom) && x in dom && y in dom && Sorted(cmp, s)
    ensures Ties(cmp, Insert(cmp, s, x), y) == Ties(cmp, s, y) + Tie(cmp, x, y)
    decreases |s|
  {
    hide Preorder, Tie;
    if s == [] {
      assert Ties(cmp, [x], y) == Tie(cmp, x, y) by { TiesCons(cmp, x, [], y); }
    } else if cmp(s[0], x) > 0 {
      TiesCons(cmp, x, s, y);
      TieCommutes(cmp, dom, s, x, y);
    } else {
      InsertTies(cmp, dom, s[1..], x, y);
      TiesCons(cmp, s[0], Insert(cmp, s[1..], x), y);
      Assoc(Tie(cmp, s[0], y), Ties(cmp, s[1..], y), Tie(cmp, x, y));
    }
  }

  lemma {:induction false} InsertPermutes<T>(cmp: Compare<T>, s: seq<T>, x: T)
    ensures multiset(Insert(cmp, s, x)) == multiset(s) + multiset([x])
    decreases |s|
  {
    if s != [] {
      assert s == [s[0]] + s[1..];
      if cmp(s[0], x) <= 0 {
        InsertPermutes(cmp, s[1..], x);
      }
    }
  }

  lemma {:induction false} InsertElems<T>(cmp: Compare<T>, s: seq<T>, e: T)
    ensures forall x :: x in Insert(cmp, s, e) <==> x in s || x == e
    decreases |s|
  {
    if s != [] {
      InsertElems(cmp, s[1..], e);
    }
  }

  /** A sorted list stays sorted; the new item is last among its equals and the others keep their order. */
  lemma InsertIsOrdered<T>(cmp: Compare<T>, dom: set<T>, s: seq<T>, x: T)
    requires Preorder(cmp, dom) && Within(s, dom) && x in dom && Sorted(cmp, s)
    ensures var r := Insert(cmp, s, x);
      && Sorted(cmp, r) && multiset(r) == multiset(s) + multiset([x])
      && forall y :: y in dom ==> Ties(cmp, r, y) == Ties(cmp, s, y) + Tie(cmp, x, y)
  {
    hide Preorder, Ties, Tie, Insert;
    InsertSorted(cmp, dom, s, x);
    InsertPermutes(cmp, s, x);
    forall y | y in dom ensures Ties(cmp, Insert(cmp, s, x), y) == Ties(cmp, s, y) + Tie(cmp, x, y) {
      InsertTies(cmp, dom, s, x, y);
    }
  }
}
