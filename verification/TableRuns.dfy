/** The simple model of a table, an ordered sequence of elements with distinct keys, and the
    refinement of every run of operations to it. */
module TableRuns {
  import opened MergeSort
  import opened OrderedInsert
  import opened HashElems
  import opened HashTable
  import ListSort

  datatype Op =
    | Add(e: Elem)
    | AddInorder(e: Elem)
    | Replace(e: Elem)
    | ReplaceInorder(e: Elem)
    | Delete(e: Elem)
    | Find(key: Key)
    | Sort
    | DeleteWhere(drop: Elem -> bool)
    | Clear

  // ---------- The model ----------

  function Lookup(s: seq<Elem>, key: Key): Elem? {
    if s == [] then null else if s[0].key == key then s[0] else Lookup(s[1..], key)
  }

  function Drop(s: seq<Elem>, e: Elem?): seq<Elem> {
    if e == null then s else Removed(s, e)
  }

  function Step(cmp: Compare<Elem>, op: Op, s: seq<Elem>): (seq<Elem>, Elem?) {
    match op
    case Add(e) => (s + [e], null)
    case AddInorder(e) => (Insert(cmp, s, e), null)
    case Replace(e) => (Drop(s, Lookup(s, e.key)) + [e], Lookup(s, e.key))
    case ReplaceInorder(e) => (Insert(cmp, Drop(s, Lookup(s, e.key)), e), Lookup(s, e.key))
    case Delete(e) => (Removed(s, e), null)
    case Find(key) => (s, Lookup(s, key))
    case Sort => (SortFrom(cmp, s, 1), null)
    case DeleteWhere(drop) => (Kept(drop, s), null)
    case Clear => ([], null)
  }

  /** Keys are added once, and only elements of the table are deleted. An element may replace another
      one, or itself, but not be in the table twice. */
  predicate Legal(op: Op, s: seq<Elem>) {
    match op
    case Add(e) => Lookup(s, e.key) == null
    case AddInorder(e) => Lookup(s, e.key) == null
    case Delete(e) => e in s
    case _ => true
  }

  predicate AllLegal(cmp: Compare<Elem>, ops: seq<Op>, s: seq<Elem>) {
    ops == [] || (Legal(ops[0], s) && AllLegal(cmp, ops[1..], Step(cmp, ops[0], s).0))
  }

  function Run(cmp: Compare<Elem>, ops: seq<Op>, s: seq<Elem>): (seq<Elem>, seq<Elem?>) {
    if ops == [] then (s, [])
    else
      var (t, out) := Step(cmp, ops[0], s);
      var (u, outs) := Run(cmp, ops[1..], t);
      (u, [out] + outs)
  }

  ghost predicate UniqueKeys(s: seq<Elem>) {
    forall i, j :: 0 <= i < j < |s| ==> s[i].key != s[j].key
  }

  /** Lookup finds an element exactly when its key is present. */
  lemma {:induction false} LookupFinds(s: seq<Elem>, key: Key)
    ensures Lookup(s, key) != null ==> Lookup(s, key) in s && Lookup(s, key).key == key
    ensures Lookup(s, key) == null <==> forall i :: 0 <= i < |s| ==> s[i].key != key
    decreases |s|
  {
    if s != [] {
      LookupFinds(s[1..], key);
      assert forall i :: 0 < i < |s| ==> s[i] == s[1..][i - 1];
    }
  }

  lemma LookupIs(s: seq<Elem>, e: Elem)
    requires UniqueKeys(s) && e in s
    ensures Lookup(s, e.key) == e
  {
    LookupFinds(s, e.key);
    var i :| 0 <= i < |s| && s[i] == e;
    var x := Lookup(s, e.key);
    var j :| 0 <= j < |s| && s[j] == x;
  }

  // ---------- Keys stay unique ----------

  lemma {:induction false} RemovedAbsent(s: seq<Elem>, e: Elem)
    requires e !in s
    ensures Removed(s, e) == s
    decreases |s|
  {
    if s != [] {
      RemovedAbsent(s[1..], e);
      assert s == [s[0]] + s[1..];
    }
  }

  lemma RemovedUnique(s: seq<Elem>, e: Elem)
    requires UniqueKeys(s)
    ensures UniqueKeys(Removed(s, e)) && Inside(Removed(s, e), s)
    ensures e in s ==> Lookup(Removed(s, e), e.key) == null
  {
    hide Lookup, Removed;
    if e in s {
      var k := IndexOf(s, e);
      assert NoDup(s);
      RemovedAt(s, k);
      WithoutAt(s, k);
      var r := Removed(s, e);
      LookupFinds(r, e.key);
      assert forall i :: 0 <= i < |r| ==> r[i] == (if i < k then s[i] else s[i + 1]);
    } else {
      RemovedAbsent(s, e);
    }
  }

  lemma {:induction false} KeptUnique(drop: Elem -> bool, s: seq<Elem>)
    requires UniqueKeys(s)
    ensures UniqueKeys(Kept(drop, s))
    decreases |s|
  {
    if s != [] {
      var t := s[..|s| - 1];
      KeptUnique(drop, t);
      KeptInside(drop, t);
      var r := Kept(drop, t);
      assert forall i {:trigger r[i]} :: 0 <= i < |r| ==> r[i] in t;
    }
  }

  lemma AppendUnique(s: seq<Elem>, e: Elem)
    requires UniqueKeys(s) && Lookup(s, e.key) == null
    ensures UniqueKeys(s + [e]) && e !in s
  {
    LookupFinds(s, e.key);
  }

  /** Permuting keeps keys unique. */
  lemma PermutedUnique(a: seq<Elem>, b: seq<Elem>)
    requires UniqueKeys(a) && multiset(a) == multiset(b)
    ensures UniqueKeys(b)
  {
    forall i, j | 0 <= i < j < |b| ensures b[i].key != b[j].key {
      assert b[i] in multiset(b) && b[j] in multiset(b);
      assert b[i] in multiset(a) && b[j] in multiset(a);
      var i' :| 0 <= i' < |a| && a[i'] == b[i];
      var j' :| 0 <= j' < |a| && a[j'] == b[j];
      if b[i] == b[j] {
        TwoPlaces(b, i, j);
        OnePlace(a, i');
      }
    }
  }

  lemma TwoPlaces(b: seq<Elem>, i: nat, j: nat)
    requires i < j < |b| && b[i] == b[j]
    ensures multiset(b)[b[i]] >= 2
  {
    assert b == b[..i] + [b[i]] + b[i + 1..j] + [b[j]] + b[j + 1..];
  }

  lemma OnePlace(a: seq<Elem>, i: nat)
    requires UniqueKeys(a) && i < |a|
    ensures multiset(a)[a[i]] == 1
  {
    assert a == a[..i] + [a[i]] + a[i + 1..];
    assert a[i] !in a[..i] && a[i] !in a[i + 1..];
  }

  lemma ReplacedUnique(s: seq<Elem>, e: Elem)
    requires UniqueKeys(s)
    ensures var d := Drop(s, Lookup(s, e.key));
      UniqueKeys(d) && Lookup(d, e.key) == null && Inside(d, s)
  {
    LookupFinds(s, e.key);
    if Lookup(s, e.key) != null {
      RemovedUnique(s, Lookup(s, e.key));
    }
  }

  lemma InsertUnique(cmp: Compare<Elem>, s: seq<Elem>, e: Elem)
    requires UniqueKeys(s) && Lookup(s, e.key) == null
    ensures UniqueKeys(Insert(cmp, s, e)) && e !in s
  {
    AppendUnique(s, e);
    InsertPermutes(cmp, s, e);
    PermutedUnique(s + [e], Insert(cmp, s, e));
  }

  /** Every legal operation keeps the keys distinct. */
  lemma StepUnique(cmp: Compare<Elem>, op: Op, s: seq<Elem>)
    requires UniqueKeys(s) && Legal(op, s)
    ensures UniqueKeys(Step(cmp, op, s).0)
  {
    hide UniqueKeys, Insert, Removed, Kept, SortFrom, Lookup, Drop, Merges;
    match op
    case Add(e) => AppendUnique(s, e);
    case AddInorder(e) => InsertUnique(cmp, s, e);
    case Replace(e) =>
      ReplacedUnique(s, e);
      AppendUnique(Drop(s, Lookup(s, e.key)), e);
    case ReplaceInorder(e) =>
      ReplacedUnique(s, e);
      InsertUnique(cmp, Drop(s, Lookup(s, e.key)), e);
    case Delete(e) => RemovedUnique(s, e);
    case Find(_) =>
    case Sort =>
      SortPermutes(cmp, s, 1);
      PermutedUnique(s, SortFrom(cmp, s, 1));
    case DeleteWhere(drop) => KeptUnique(drop, s);
    case Clear => NoneUnique();
  }

  /** The elements after an operation, one by one, and what the operation returns. */
  lemma StepMeans(cmp: Compare<Elem>, op: Op, s: seq<Elem>)
    requires UniqueKeys(s) && Legal(op, s)
    ensures var (t, out) := Step(cmp, op, s);
      match op
      case Add(e) => t == s + [e] && out == null
      case AddInorder(e) => multiset(t) == multiset(s + [e]) && out == null
      case Replace(e) =>
        && t != [] && t[|t| - 1] == e && (forall x :: x in t <==> x == e || (x in s && x.key != e.key))
        && (out == null <==> forall x :: x in s ==> x.key != e.key) && (out != null ==> out in s && out.key == e.key)
      case ReplaceInorder(e) =>
        && (forall x :: x in t <==> x == e || (x in s && x.key != e.key))
        && (out == null <==> forall x :: x in s ==> x.key != e.key) && (out != null ==> out in s && out.key == e.key)
      case Delete(e) => (forall x :: x in t <==> x in s && x != e) && out == null
      case Find(key) =>
        && t == s && (out == null <==> forall x :: x in s ==> x.key != key) && (out != null ==> out in s && out.key == key)
      case Sort => multiset(t) == multiset(s) && out == null
      case DeleteWhere(drop) => (forall x :: x in t <==> x in s && !drop(x)) && out == null
      case Clear => t == [] && out == null
  {
    hide UniqueKeys, Insert, Removed, Kept, SortFrom, Lookup, Merges;
    match op
    case Add(e) =>
    case AddInorder(e) => InsertPermutes(cmp, s, e);
    case Replace(e) =>
      DropMeans(s, e.key);
    case ReplaceInorder(e) =>
      DropMeans(s, e.key);
      InsertElems(cmp, Drop(s, Lookup(s, e.key)), e);
    case Delete(e) =>
      KeysNoDup(s);
      RemovedElems(s, e);
    case Find(key) => LookupMeans(s, key);
    case Sort => SortPermutes(cmp, s, 1);
    case DeleteWhere(drop) => KeptElems(drop, s);
    case Clear =>
  }

  lemma KeysNoDup(s: seq<Elem>)
    requires UniqueKeys(s)
    ensures NoDup(s)
  {
  }

  lemma LookupMeans(s: seq<Elem>, key: Key)
    ensures Lookup(s, key) == null <==> forall x :: x in s ==> x.key != key
    ensures Lookup(s, key) != null ==> Lookup(s, key) in s && Lookup(s, key).key == key
  {
    LookupFinds(s, key);
    hide Lookup;
    if Lookup(s, key) == null {
      forall x | x in s ensures x.key != key {
        var i :| 0 <= i < |s| && s[i] == x;
      }
    }
  }

  lemma DropMeans(s: seq<Elem>, key: Key)
    requires UniqueKeys(s)
    ensures Lookup(s, key) == null <==> forall x :: x in s ==> x.key != key
    ensures Lookup(s, key) != null ==> Lookup(s, key) in s && Lookup(s, key).key == key
    ensures forall x :: x in Drop(s, Lookup(s, key)) <==> x in s && x.key != key
  {
    hide UniqueKeys, Lookup, Removed;
    LookupMeans(s, key);
    KeysNoDup(s);
    var e := Lookup(s, key);
    if e != null {
      RemovedElems(s, e);
      forall x | x in s && x.key == key ensures x == e {
        LookupIs(s, x);
      }
    }
  }

  lemma NoneUnique()
    ensures UniqueKeys([])
  {
  }

  // ---------- Refinement ----------

  function Subject(op: Op): set<Elem> {
    match op
    case Add(e) => {e}
    case AddInorder(e) => {e}
    case Replace(e) => {e}
    case ReplaceInorder(e) => {e}
    case _ => {}
  }

  function Subjects(ops: seq<Op>): set<Elem> {
    if ops == [] then {} else Subject(ops[0]) + Subjects(ops[1..])
  }

  lemma FindAgrees(s: seq<Elem>, key: Key, out: Elem?)
    requires UniqueKeys(s)
    requires out != null ==> out in s && out.key == key
    requires out == null ==> forall e :: e in s ==> e.key != key
    ensures out == Lookup(s, key)
  {
    LookupFinds(s, key);
    if out != null {
      LookupIs(s, out);
    }
  }

  lemma OnlyItself(s: seq<Elem>, e: Elem)
    requires UniqueKeys(s)
    ensures e in s ==> forall x :: x in s && x.key == e.key ==> x == e
  {
    if e in s {
      forall x | x in s && x.key == e.key ensures x == e {
        LookupIs(s, x);
        LookupIs(s, e);
      }
    }
  }

  lemma StepInside(cmp: Compare<Elem>, op: Op, s: seq<Elem>)
    requires UniqueKeys(s) && Legal(op, s)
    ensures Within(Step(cmp, op, s).0, Elems(s) + Subject(op))
  {
    hide UniqueKeys, Insert, Removed, Kept, SortFrom, Lookup, Drop, Merges;
    match op
    case Add(e) =>
    case AddInorder(e) => InsertInside(cmp, s, e);
    case Replace(e) => ReplacedUnique(s, e);
    case ReplaceInorder(e) =>
      ReplacedUnique(s, e);
      InsertInside(cmp, Drop(s, Lookup(s, e.key)), e);
    case Delete(e) => RemovedUnique(s, e);
    case Find(_) =>
    case Sort =>
      SortPermutes(cmp, s, 1);
      ListSort.SameElems(SortFrom(cmp, s, 1), s);
    case DeleteWhere(drop) => KeptInside(drop, s);
    case Clear =>
  }

  lemma InsertInside(cmp: Compare<Elem>, s: seq<Elem>, e: Elem)
    ensures Inside(Insert(cmp, s, e), s + [e])
  {
    InsertPermutes(cmp, s, e);
    ListSort.SameElems(Insert(cmp, s, e), s + [e]);
  }

  /** One operation on the table does what the model does. */
  method Apply(t: Table, cmp: Compare<Elem>, op: Op) returns (out: Elem?)
    requires t.Valid() && UniqueKeys(t.items) && Legal(op, t.items)
    modifies t, t.buckets, t.items, Subject(op)
    ensures t.Valid() && (t.items, out) == Step(cmp, op, old(t.items))
    ensures t.buckets == old(t.buckets) || fresh(t.buckets)
  {
    hide UniqueKeys, Insert, Removed, Kept, SortFrom, Lookup, Merges;
    out := null;
    ghost var s := t.items;
    match op
    case Add(e) =>
      AppendUnique(s, e);
      t.Add(e);
    case AddInorder(e) =>
      AppendUnique(s, e);
      t.AddInorder(e, cmp);
    case Replace(e) =>
      OnlyItself(s, e);
      out := t.Replace(e);
      FindAgrees(s, e.key, out);
    case ReplaceInorder(e) =>
      OnlyItself(s, e);
      out := t.ReplaceInorder(e, cmp);
      FindAgrees(s, e.key, out);
    case Delete(e) =>
      t.Delete(e);
    case Find(key) =>
      out := t.Find(key);
      FindAgrees(s, key, out);
    case Sort =>
      t.Sort(cmp);
    case DeleteWhere(drop) =>
      var _ := t.IterDelete(drop);
    case Clear =>
      t.Clear();
  }

  /** Every legal run of operations keeps the table intact and refines the model. */
  method Execute(t: Table, cmp: Compare<Elem>, ops: seq<Op>) returns (outs: seq<Elem?>)
    requires t.Valid() && UniqueKeys(t.items) && AllLegal(cmp, ops, t.items)
    modifies t, t.buckets, t.items, Subjects(ops)
    ensures t.Valid() && UniqueKeys(t.items) && (t.items, outs) == Run(cmp, ops, old(t.items))
    decreases |ops|
  {
    hide UniqueKeys, Legal, Step;
    if ops == [] {
      outs := [];
    } else {
      StepUnique(cmp, ops[0], t.items);
      StepInside(cmp, ops[0], t.items);
      var out := Apply(t, cmp, ops[0]);
      var rest := Execute(t, cmp, ops[1..]);
      outs := [out] + rest;
    }
  }
}
