/** The intrusive hash table: a doubly linked list in application order and doubly linked bucket
    chains, both threaded through the same elements. */
module HashTable {
  import Bits
  import opened MergeSort
  import opened OrderedInsert
  import opened HashElems
  import ListSort

  const INITIAL_NUM_BUCKETS: nat := 32
  const INITIAL_NUM_BUCKETS_LOG2: nat := 5
  const BKT_CAPACITY_THRESH: nat := 10

  class Table {
    /** Computes a key's hash value. */
    const hashOf: Key -> nat

    /** The user's pointer. While it is null there is no table. */
    var head: Elem?
    var tail: Elem?
    var buckets: array<Bucket>
    var numBuckets: nat
    var log2NumBuckets: nat
    var numItems: nat
    var idealChainMaxlen: nat
    var nonidealItems: nat
    var ineffExpands: nat
    var noexpand: bool

    /** The elements in application order, and the chain of each bucket. */
    ghost var items: seq<Elem>
    ghost var chains: seq<seq<Elem>>

    constructor (hashOf: Key -> nat)
      ensures Valid() && items == [] && this.hashOf == hashOf && fresh(buckets)
    {
      this.hashOf := hashOf;
      head, tail := null, null;
      buckets := new Bucket[0];
      numBuckets, log2NumBuckets, numItems, idealChainMaxlen, nonidealItems, ineffExpands := 0, 0, 0, 0, 0, 0;
      noexpand := false;
      items, chains := [], [];
    }

    ghost predicate ListOk()
      reads this`items, this`head, this`tail, items`next, items`prev
    {
      NoDup(items) && Linked(items) && head == First(items) && tail == Last(items)
    }

    /** The chains hold exactly the elements of `m`, each in the bucket of its hash value. */
    ghost predicate ChainsOk(m: set<Elem>)
      reads this`numBuckets, this`log2NumBuckets, this`buckets, this`chains, buckets, m`hhNext, m`hhPrev, m`hashv
    {
      && numBuckets == Bits.Pow2(log2NumBuckets) == buckets.Length == |chains|
      && (forall b :: 0 <= b < |chains| ==> Within(chains[b], m) && GoodChain(chains[b], buckets[b], b, numBuckets))
      && (forall e :: e in m ==> InChain(e))
    }

    ghost predicate InChain(e: Elem)
      reads this`numBuckets, this`chains, e`hashv
    {
      numBuckets > 0 && ToBkt(e.hashv, numBuckets) < |chains| && e in chains[ToBkt(e.hashv, numBuckets)]
    }

    /** What the table keeps of its buckets. */
    ghost function Current(): Shape
      reads this`chains, this`buckets, buckets, this`numItems, this`idealChainMaxlen, this`nonidealItems, this`ineffExpands,
            this`noexpand
    {
      Shape(chains, Mults(buckets[..]), numItems, idealChainMaxlen, nonidealItems, ineffExpands, noexpand)
    }

    /** The shape that an addition starts from. */
    ghost function StartShape(): Shape
      reads this`head, this`chains, this`buckets, buckets, this`numItems, this`idealChainMaxlen, this`nonidealItems,
            this`ineffExpands, this`noexpand
    {
      if head == null then NewShape() else Current()
    }

    ghost predicate Valid()
      reads this, buckets, items
    {
      if head == null then items == []
      else
        && ListOk() && ChainsOk(Elems(items)) && numItems == |items|
        && forall e :: e in items ==> e.hashv == hashOf(e.key)
    }

    // ---------- Bucket chains ----------

    lemma ChainsDisjoint(b: nat, m: set<Elem>)
      requires ChainsOk(m) && b < |chains|
      ensures forall c, e :: 0 <= c < |chains| && c != b && e in chains[c] ==> e !in chains[b]
    {
      hide ToBkt;
      forall c, e | 0 <= c < |chains| && c != b && e in chains[c] ensures e !in chains[b] {
        assert GoodChain(chains[c], buckets[c], c, numBuckets) && GoodChain(chains[b], buckets[b], b, numBuckets);
      }
    }

    /** Links an element in at the front of a chain. */
    static method LinkFront(bkt: Bucket, add: Elem, ghost c: seq<Elem>, ghost b: nat, ghost n: nat) returns (r: Bucket)
      requires n > 0 && GoodChain(c, bkt, b, n) && add !in c && ToBkt(add.hashv, n) == b
      modifies c`hhPrev, add`hhPrev, add`hhNext
      ensures GoodChain([add] + c, r, b, n) && r.expandMult == bkt.expandMult
    {
      hide ToBkt;
      add.hhNext := bkt.head;
      add.hhPrev := null;
      if bkt.head != null {
        bkt.head.hhPrev := add;
      }
      r := Bucket(add, bkt.count + 1, bkt.expandMult);
    }

    /** Puts an element at the front of its bucket. */
    method PushFront(b: nat, add: Elem, ghost m: set<Elem>)
      requires ChainsOk(m) && add !in m && b < |chains| && b == ToBkt(add.hashv, numBuckets)
      modifies buckets, this`chains, chains[b]`hhPrev, add`hhPrev, add`hhNext
      ensures ChainsOk(m + {add})
      ensures chains == old(chains)[b := [add] + old(chains)[b]]
      ensures Mults(buckets[..]) == old(Mults(buckets[..]))
      ensures forall c :: 0 <= c < buckets.Length ==> buckets[c].expandMult == old(buckets[c].expandMult)
    {
      hide ToBkt, NoDup, Chained;
      ChainsDisjoint(b, m);
      ghost var c := chains[b];
      assert GoodChain(c, buckets[b], b, numBuckets) && Within(c, m);
      buckets[b] := LinkFront(buckets[b], add, c, b, numBuckets);
      chains := chains[b := [add] + c];
      forall i | 0 <= i < |chains|
        ensures Within(chains[i], m + {add}) && GoodChain(chains[i], buckets[i], i, numBuckets)
      {
        if i != b {
          assert old(Within(chains[i], m) && GoodChain(chains[i], buckets[i], i, numBuckets));
        }
      }
      forall e | e in m + {add} ensures InChain(e) {
        assert e != add ==> old(InChain(e));
      }
    }

    /** Lets the neighbours of an element in its chain bypass it. */
    static method Bypass(del: Elem, ghost c: seq<Elem>, ghost j: nat)
      requires NoDup(c) && Chained(c) && j < |c| && c[j] == del
      modifies c`hhPrev, c`hhNext
      ensures Chained(Without(c, j))
      ensures del.hhNext == old(del.hhNext) && del.hhPrev == old(del.hhPrev)
    {
      if del.hhPrev != null {
        del.hhPrev.hhNext := del.hhNext;
      }
      if del.hhNext != null {
        del.hhNext.hhPrev := del.hhPrev;
      }
      assert forall i {:trigger c[i].hhNext} :: 0 <= i < |c| ==> c[i].hhNext == if i == j - 1 then NextIn(c, j) else NextIn(c, i);
      assert forall i {:trigger c[i].hhPrev} :: 0 <= i < |c| ==> c[i].hhPrev == if i == j + 1 then PrevIn(c, j) else PrevIn(c, i);
      ChainedWithout(c, j);
    }

    /** Unlinks an element from its chain. */
    static method UnlinkFrom(bkt: Bucket, del: Elem, ghost c: seq<Elem>, ghost j: nat, ghost b: nat, ghost n: nat)
      returns (r: Bucket)
      requires n > 0 && GoodChain(c, bkt, b, n) && j < |c| && c[j] == del
      modifies c`hhPrev, c`hhNext
      ensures GoodChain(Without(c, j), r, b, n) && r.expandMult == bkt.expandMult
    {
      r := bkt.(count := bkt.count - 1);
      if r.head == del {
        r := r.(head := del.hhNext);
      }
      HeadWithout(c, j);
      assert r.head == First(Without(c, j));
      Bypass(del, c, j);
      hide ToBkt, Chained, NoDup;
      WithoutElems(c, j);
      WithoutAt(c, j);
    }

    /** Takes an element out of its bucket. */
    method DelInBkt(b: nat, del: Elem, ghost m: set<Elem>) returns (ghost j: nat)
      requires ChainsOk(m) && del in m && b < |chains| && b == ToBkt(del.hashv, numBuckets)
      modifies buckets, this`chains, chains[b]`hhPrev, chains[b]`hhNext
      ensures ChainsOk(m - {del})
      ensures j < |old(chains)[b]| && old(chains)[b][j] == del && chains == old(chains)[b := Without(old(chains)[b], j)]
      ensures forall c :: 0 <= c < buckets.Length ==> buckets[c].expandMult == old(buckets[c].expandMult)
    {
      hide ToBkt, NoDup, Chained;
      ChainsDisjoint(b, m);
      ghost var c := chains[b];
      assert GoodChain(c, buckets[b], b, numBuckets) && Within(c, m) && InChain(del);
      j :| 0 <= j < |c| && c[j] == del;
      WithoutElems(c, j);
      buckets[b] := UnlinkFrom(buckets[b], del, c, j, b, numBuckets);
      chains := chains[b := Without(c, j)];
      forall i | 0 <= i < |chains|
        ensures Within(chains[i], m - {del}) && GoodChain(chains[i], buckets[i], i, numBuckets)
      {
        if i != b {
          assert old(Within(chains[i], m) && GoodChain(chains[i], buckets[i], i, numBuckets));
        }
      }
      forall e | e in m - {del} ensures InChain(e) {
        assert old(InChain(e));
      }
    }

    // ---------- The application-order list ----------

    /** Links an element in behind the last one. */
    method AppendList(add: Elem)
      requires ListOk() && items != [] && add !in items
      modifies this`tail, this`items, add`prev, add`next, items`next
      ensures ListOk() && items == old(items) + [add]
    {
      add.next := null;
      add.prev := tail;
      tail.next := add;
      tail := add;
      items := items + [add];
    }

    /** Links an element in before the one at position `k`. */
    method InsertBefore(iter: Elem, add: Elem, ghost k: nat)
      requires ListOk() && k < |items| && items[k] == iter && add !in items
      modifies this`head, this`items, add`prev, add`next, items`next, items`prev
      ensures ListOk() && items == old(items)[..k] + [add] + old(items)[k..]
    {
      add.next := iter;
      add.prev := iter.prev;
      if add.prev != null {
        add.prev.next := add;
      } else {
        head := add;
      }
      iter.prev := add;
      ghost var s := items;
      items := s[..k] + [add] + s[k..];
      assert forall i {:trigger s[i].next} :: 0 <= i < |s| ==> s[i].next == if i == k - 1 then add else NextIn(s, i);
      assert forall i {:trigger s[i].prev} :: 0 <= i < |s| ==> s[i].prev == if i == k then add else PrevIn(s, i);
      LinkedInsert(s, k, add);
    }

    /** Unlinks an element that is not the only one. */
    method RemoveFromList(del: Elem, ghost k: nat)
      requires ListOk() && k < |items| && items[k] == del && |items| > 1
      modifies this`head, this`tail, this`items, items`next, items`prev
      ensures ListOk() && items == Without(old(items), k)
    {
      ghost var s := items;
      if del == tail {
        tail := del.prev;
      }
      if del.prev != null {
        del.prev.next := del.next;
      } else {
        head := del.next;
      }
      if del.next != null {
        del.next.prev := del.prev;
      }
      assert forall i {:trigger s[i].next} :: 0 <= i < |s| ==> s[i].next == if i == k - 1 then NextIn(s, k) else NextIn(s, i);
      assert forall i {:trigger s[i].prev} :: 0 <= i < |s| ==> s[i].prev == if i == k + 1 then PrevIn(s, k) else PrevIn(s, i);
      EndsWithout(s, k);
      items := Without(s, k);
      hide *;
      LinkedWithout(s, k);
      WithoutElems(s, k);
      MakeListOk();
    }

    lemma MakeListOk()
      requires NoDup(items) && Linked(items) && head == First(items) && tail == Last(items)
      ensures ListOk()
    {
    }

    // ---------- Lookup ----------

    lemma ValidParts()
      requires Valid() && head != null
      ensures ListOk() && ChainsOk(Elems(items)) && numItems == |items| > 0
      ensures forall e :: e in items ==> e.hashv == hashOf(e.key)
    {
    }

    lemma ListParts()
      requires ListOk()
      ensures NoDup(items) && Linked(items) && head == First(items) && tail == Last(items)
    {
    }

    lemma ChainParts(m: set<Elem>)
      requires ChainsOk(m)
      ensures numBuckets == Bits.Pow2(log2NumBuckets) == buckets.Length == |chains|
    {
    }

    lemma ChainOf(b: nat, m: set<Elem>)
      requires ChainsOk(m) && b < |chains|
      ensures Within(chains[b], m) && GoodChain(chains[b], buckets[b], b, numBuckets)
    {
    }

    /** Looks a key up in its bucket. */
    method Find(key: Key) returns (out: Elem?)
      requires Valid()
      ensures out != null ==> out in items && out.key == key
      ensures out == null ==> forall e :: e in items ==> e.key != key
    {
      out := null;
      if head != null {
        ValidParts();
        var hashval := hashOf(key);
        var b := ToBkt(hashval, numBuckets);
        BucketInRange(hashval);
        ChainOf(b, Elems(items));
        ghost var c := chains[b];
        out := buckets[b].head;
        ghost var j := 0;
        while out != null
          invariant j <= |c| && out == (if j < |c| then c[j] else null)
          invariant forall i :: 0 <= i < j ==> c[i].key != key
          decreases |c| - j
        {
          if out.hashv == hashval && |out.key| == |key| {
            if out.key == key {
              return;
            }
          }
          out := out.hhNext;
          j := j + 1;
        }
        forall e | e in items ensures e.key != key {
          assert e in Elems(items) && InChain(e);
        }
      }
    }

    lemma BucketInRange(hashv: nat)
      requires numBuckets == Bits.Pow2(log2NumBuckets) == |chains|
      ensures numBuckets > 0 && ToBkt(hashv, numBuckets) < |chains|
    {
      ToBktIsMod(hashv, log2NumBuckets);
    }

    // ---------- Deletion ----------

    /** Takes one of several elements out of both structures. */
    method DeleteOne(del: Elem, ghost k: nat)
      requires ListOk() && ChainsOk(Elems(items)) && k < |items| && items[k] == del && |items| > 1 && numItems == |items|
      modifies this`head, this`tail, this`items, this`chains, this`numItems, buckets,
               items`next, items`prev, items`hhNext, items`hhPrev
      ensures ListOk() && ChainsOk(Elems(items)) && items == Without(old(items), k) && numItems == |items|
      ensures Current() == Shrunk(old(Current()), del, del.hashv)
      ensures forall c :: 0 <= c < buckets.Length ==> buckets[c].expandMult == old(buckets[c].expandMult)
    {
      hide *;
      ghost var s, m, bs, cs := items, Elems(items), buckets[..], chains;
      ListParts();
      WithoutAt(s, k);
      ElemsOf(s);
      ChainParts(m);
      BucketInRange(del.hashv);
      RemoveFromList(del, k);
      assert old(ChainsOk(m));
      assert ChainsOk(m);
      var b := ToBkt(del.hashv, numBuckets);
      ChainOf(b, m);
      ChainElems(cs[b], m);
      ChainNoDup(cs[b], buckets[b], b, numBuckets);
      CurrentIs();
      ghost var before := Current();
      ghost var j := DelInBkt(b, del, m);
      WithoutSet(s, k);
      assert m - {del} == Elems(items);
      numItems := numItems - 1;
      ToBktIsMod(del.hashv, log2NumBuckets);
      SameMults(bs, buckets[..]);
      RemovedAt(cs[b], j);
      IsShrunk(before, del, b);
    }

    lemma IsShrunk(s: Shape, del: Elem, b: nat)
      requires |s.chains| > 0 && b == del.hashv % |s.chains| && s.numItems == numItems + 1
      requires chains == s.chains[b := Removed(s.chains[b], del)] && Mults(buckets[..]) == s.mults
      requires s.ideal == idealChainMaxlen && s.nonideal == nonidealItems && s.ineff == ineffExpands && s.noexpand == noexpand
      ensures Current() == Shrunk(s, del, del.hashv)
    {
    }

    lemma MakeValid()
      requires ListOk() && ChainsOk(Elems(items)) && numItems == |items| > 0
      requires forall e :: e in items ==> e.hashv == hashOf(e.key)
      ensures Valid() && head != null
    {
    }

    /** Deletes an element. With the last one the table itself goes away. */
    method Delete(del: Elem)
      requires Valid() && del in items
      modifies this`head, this`tail, this`items, this`chains, this`numItems, buckets,
               items`next, items`prev, items`hhNext, items`hhPrev
      ensures Valid() && items == Removed(old(items), del) && (head == null <==> items == [])
      ensures head != null ==> Current() == Shrunk(old(Current()), del, hashOf(del.key))
      ensures forall c :: 0 <= c < buckets.Length ==> buckets[c].expandMult == old(buckets[c].expandMult)
    {
      hide ListOk, ChainsOk, Linked;
      ValidParts();
      ghost var s := items;
      ghost var k := IndexOf(s, del);
      ListParts();
      RemovedAt(s, k);
      OnlyOne(s, k);
      if del.prev == null && del.next == null {
        head := null;
        items := [];
      } else {
        WithoutElems(s, k);
        WithoutAt(s, k);
        DeleteOne(del, k);
        MakeValid();
      }
    }

    // ---------- Bucket expansion ----------

    /** Counts one more item in a new bucket, against the ideal chain length. */
    static method CountItem(bkt: Bucket, ideal: nat, nonideal: nat) returns (r: Bucket, n: nat)
      ensures r.head == bkt.head && r.count == bkt.count + 1
      ensures n + Excess(bkt.count, ideal) == nonideal + Excess(r.count, ideal)
      ensures ideal > 0 && MultOk(bkt.count, bkt.expandMult, ideal) ==> MultOk(r.count, r.expandMult, ideal)
    {
      r, n := bkt.(count := bkt.count + 1), nonideal;
      if ideal > 0 && MultOk(bkt.count, bkt.expandMult, ideal) {
        MultStep(bkt.count, bkt.expandMult, ideal);
      }
      if r.count > ideal {
        n := n + 1;
        if r.count > r.expandMult * ideal {
          r := r.(expandMult := r.expandMult + 1);
        }
      }
    }

    /** Moves an element to the front of its new bucket. */
    static method MoveTo(newBuckets: array<Bucket>, thh: Elem, ideal: nat, nonideal: nat,
                         ghost p: seq<Elem>, ghost cs: seq<seq<Elem>>)
      returns (n: nat, ghost r: seq<seq<Elem>>)
      requires Filled(newBuckets[..], cs, p, ideal, nonideal) && thh !in p
      requires ToBkt(thh.hashv, newBuckets.Length) < newBuckets.Length
      modifies newBuckets, p`hhPrev, thh`hhPrev, thh`hhNext
      ensures Filled(newBuckets[..], r, p + [thh], ideal, n)
    {
      hide ToBkt, NoDup, Chained, MultOk, ExcessOf, Excess, Dist, GoodChain, First;
      var b := ToBkt(thh.hashv, newBuckets.Length);
      var before := newBuckets[b];
      assert Inside(cs[b], p) && GoodChain(cs[b], before, b, |cs|);
      ChainLength(cs[b], before, b, |cs|);
      NewChainsDisjoint(cs, newBuckets[..], b);
      var counted;
      counted, n := CountItem(before, ideal, nonideal);
      var linked := LinkFront(before, thh, cs[b], b, newBuckets.Length);
      ChainLength([thh] + cs[b], linked, b, |cs|);
      newBuckets[b] := linked.(expandMult := counted.expandMult);
      WithMult([thh] + cs[b], linked, counted.expandMult, b, |cs|);
      ExcessUpdate(cs, b, [thh] + cs[b], ideal);
      DistSnoc(p, thh, |cs|);
      r := cs[b := [thh] + cs[b]];
      forall j | 0 <= j < |r|
        ensures Inside(r[j], p + [thh]) && GoodChain(r[j], newBuckets[j], j, |r|) && r[j] == Dist(p + [thh], |r|, j)
        ensures ideal > 0 ==> MultOk(newBuckets[j].count, newBuckets[j].expandMult, ideal)
      {
        if j != b {
          assert old(Inside(cs[j], p) && GoodChain(cs[j], newBuckets[j], j, |cs|));
          assert forall i {:trigger cs[j][i]} :: 0 <= i < |cs[j]| ==> cs[j][i] !in cs[b] && cs[j][i] != thh;
        }
      }
    }

    /** Redistributes the elements of one old chain, first to last. */
    static method MoveChain(newBuckets: array<Bucket>, first: Elem?, ideal: nat, nonideal: nat,
                            ghost c: seq<Elem>, ghost done: seq<Elem>, ghost cs: seq<seq<Elem>>)
      returns (n: nat, ghost r: seq<seq<Elem>>)
      requires Filled(newBuckets[..], cs, done, ideal, nonideal) && NoDup(c) && first == First(c)
      requires forall e :: e in c ==> e !in done && ToBkt(e.hashv, newBuckets.Length) < newBuckets.Length
      requires NextLinked(c)
      modifies newBuckets, done`hhPrev, c`hhPrev, c`hhNext
      ensures Filled(newBuckets[..], r, done + c, ideal, n)
    {
      hide ToBkt, Filled;
      n, r := nonideal, cs;
      var thh := first;
      ghost var k := 0;
      assert done + c[..0] == done;
      while thh != null
        invariant k <= |c| && thh == (if k < |c| then c[k] else null)
        invariant forall t {:trigger c[t].hhNext} :: k <= t < |c| ==> c[t].hhNext == NextIn(c, t)
        invariant Filled(newBuckets[..], r, done + c[..k], ideal, n)
        decreases |c| - k
      {
        var next := thh.hhNext;
        ghost var p := done + c[..k];
        assert forall i {:trigger p[i]} :: 0 <= i < |p| ==> p[i] in done || p[i] in c;
        assert c[k] in c;
        n, r := MoveTo(newBuckets, thh, ideal, n, p, r);
        assert done + c[..k + 1] == p + [thh];
        thh := next;
        k := k + 1;
      }
      assert c[..k] == c;
    }

    lemma ChainFacts(m: set<Elem>)
      requires ChainsOk(m)
      ensures Placed(chains, m, numBuckets)
      ensures forall i :: 0 <= i < |chains| ==> buckets[i].head == First(chains[i]) && NextLinked(chains[i])
    {
      hide ToBkt;
      forall i | 0 <= i < |chains|
        ensures NoDup(chains[i]) && buckets[i].head == First(chains[i]) && NextLinked(chains[i])
        ensures Within(chains[i], m)
        ensures forall t {:trigger chains[i][t].hashv} :: 0 <= t < |chains[i]| ==>
          ToBkt(chains[i][t].hashv, numBuckets) == i
      {
        assert GoodChain(chains[i], buckets[i], i, numBuckets) && Within(chains[i], m);
      }
    }

    /** Fills the new buckets, one old bucket after the other. */
    method Redistribute(newBuckets: array<Bucket>, ideal: nat, ghost m: set<Elem>) returns (n: nat, ghost r: seq<seq<Elem>>)
      requires ChainsOk(m) && newBuckets != buckets && newBuckets.Length == 2 * numBuckets
      requires forall j :: 0 <= j < newBuckets.Length ==> newBuckets[j] == Bucket(null, 0, 0)
      modifies newBuckets, m`hhPrev, m`hhNext
      ensures Filled(newBuckets[..], r, Flat(chains), ideal, n)
    {
      hide ToBkt, Filled, ChainsOk, NoDup, Flat, First, NextIn, Placed, NextLinked, Bits.Pow2, Bits.And;
      ChainParts(m);
      ChainFacts(m);
      n, r := 0, seq(newBuckets.Length, _ => []);
      NothingMoved(newBuckets[..], r, ideal);
      FlatNone(chains);
      for i := 0 to numBuckets
        invariant forall h :: i <= h < |chains| ==> NextLinked(chains[h])
        invariant Filled(newBuckets[..], r, Flat(chains[..i]), ideal, n)
      {
        ghost var done, c := Flat(chains[..i]), chains[i];
        FlatDisjoint(chains, i, m, numBuckets);
        NewBucketsInRange(c, numBuckets, log2NumBuckets);
        FlatWithin(chains, i, m, numBuckets);
        FlatSnoc(chains, i);
        label Before:
        n, r := MoveChain(newBuckets, buckets[i].head, ideal, n, c, done, r);
        forall h | i < h < |chains| ensures NextLinked(chains[h]) {
          assert old@Before(NextLinked(chains[h]));
        }
      }
      assert chains[..numBuckets] == chains;
    }

    lemma NothingMoved(bs: seq<Bucket>, r: seq<seq<Elem>>, ideal: nat)
      requires |r| == |bs| > 0 && forall j :: 0 <= j < |r| ==> r[j] == [] && bs[j] == Bucket(null, 0, 0)
      ensures Filled(bs, r, [], ideal, 0)
    {
      NoExcess(r, ideal);
    }

    /** Moves all elements to twice as many buckets. */
    method Rehash(ghost m: set<Elem>)
      requires ChainsOk(m) && numItems > 0
      modifies this`buckets, this`numBuckets, this`log2NumBuckets, this`idealChainMaxlen, this`nonidealItems,
               this`chains, m`hhPrev, m`hhNext
      ensures ChainsOk(m) && fresh(buckets) && numBuckets == 2 * old(numBuckets)
      ensures Expansion(old(chains), chains, old(numBuckets), numBuckets, m)
      ensures IsCeil(idealChainMaxlen, numItems, numBuckets)
      ensures Balanced(buckets[..], chains, idealChainMaxlen, nonidealItems)
    {
      hide *;
      ChainParts(m);
      ChainFacts(m);
      OldElements(m);
      var newBuckets := new Bucket[2 * numBuckets](_ => Bucket(null, 0, 0));
      idealChainMaxlen := Bits.Shr(numItems, log2NumBuckets + 1) +
                          (if Bits.And(numItems, 2 * numBuckets - 1) != 0 then 1 else 0);
      DoubledBuckets(log2NumBuckets);
      IdealIsCeil(numItems, log2NumBuckets + 1);
      ghost var r;
      nonidealItems, r := Redistribute(newBuckets, idealChainMaxlen, m);
      ghost var cs, n, k := chains, numBuckets, log2NumBuckets;
      numBuckets := numBuckets * 2;
      log2NumBuckets := log2NumBuckets + 1;
      buckets := newBuckets;
      chains := r;
      ExpansionFacts(newBuckets[..], chains, cs, m, n, k, idealChainMaxlen, nonidealItems);
      NewChainsOk(m);
    }

    /** Doubles the number of buckets. The elements of bucket `i` go to buckets `i` and `i + n`, in
        reversed order, and the table keeps count of the items beyond the ideal chain length. Two
        ineffective expansions in a row are the last. */
    method ExpandBuckets(ghost m: set<Elem>)
      requires ChainsOk(m) && numItems > 0
      modifies this`buckets, this`numBuckets, this`log2NumBuckets, this`idealChainMaxlen, this`nonidealItems,
               this`ineffExpands, this`noexpand, this`chains, m`hhPrev, m`hhNext
      ensures ChainsOk(m) && fresh(buckets) && numBuckets == 2 * old(numBuckets)
      ensures Expansion(old(chains), chains, old(numBuckets), numBuckets, m)
      ensures IsCeil(idealChainMaxlen, numItems, numBuckets)
      ensures Balanced(buckets[..], chains, idealChainMaxlen, nonidealItems)
      ensures ineffExpands == if nonidealItems > numItems / 2 then old(ineffExpands) + 1 else 0
      ensures noexpand == (old(noexpand) || ineffExpands > 1)
    {
      hide *;
      Rehash(m);
      Halving(numItems);
      ineffExpands := if nonidealItems > Bits.Shr(numItems, 1) then ineffExpands + 1 else 0;
      if ineffExpands > 1 {
        noexpand := true;
      }
    }

    lemma OldElements(m: set<Elem>)
      requires ChainsOk(m)
      ensures Gathered(chains, m, numBuckets)
    {
      hide ToBkt;
      forall e | e in m ensures ToBkt(e.hashv, numBuckets) < |chains| && e in chains[ToBkt(e.hashv, numBuckets)] {
        assert InChain(e);
      }
    }

    lemma NewChainsOk(m: set<Elem>)
      requires numBuckets == Bits.Pow2(log2NumBuckets) == buckets.Length == |chains|
      requires forall j :: 0 <= j < |chains| ==> Within(chains[j], m) && GoodChain(chains[j], buckets[j], j, |chains|)
      requires Gathered(chains, m, numBuckets)
      ensures ChainsOk(m)
    {
      hide ToBkt, GoodChain, Within;
      forall e | e in m ensures InChain(e) {
      }
    }

    // ---------- Insertion ----------

    /** Adds an element to its bucket, and doubles the buckets when its chain got too long. */
    method AddToBkt(b: nat, add: Elem, ghost m: set<Elem>)
      requires ChainsOk(m) && add !in m && b < |chains| && b == ToBkt(add.hashv, numBuckets) && numItems > 0
      modifies buckets, this`buckets, this`numBuckets, this`log2NumBuckets, this`idealChainMaxlen, this`nonidealItems,
               this`ineffExpands, this`noexpand, this`chains, m`hhPrev, m`hhNext, add`hhPrev, add`hhNext
      ensures ChainsOk(m + {add}) && (buckets == old(buckets) || fresh(buckets))
      ensures Grows(old(Current()).(numItems := old(numItems) - 1), Current(), add, add.hashv, m + {add})
    {
      hide *;
      CurrentIs();
      ChainParts(m);
      ChainOf(b, m);
      PushFront(b, add, m);
      ChainParts(m + {add});
      ChainOf(b, m + {add});
      CountGrows(old(chains)[b], old(buckets[b]), chains[b], buckets[b], add, b, numBuckets);
      assert buckets[b].expandMult == old(buckets[b].expandMult);
      ToBktIsMod(add.hashv, log2NumBuckets);
      CurrentIs();
      ghost var before, mid := old(Current()).(numItems := numItems - 1), Current();
      MultsAt(buckets[..]);
      Threshold();
      if buckets[b].count >= (buckets[b].expandMult + 1) * BKT_CAPACITY_THRESH && !noexpand {
        ExpandBuckets(m + {add});
        ChainParts(m + {add});
        CurrentIs();
        AllCounts(m + {add});
      }
      IsGrown(before, mid, Current(), buckets[..], add, b, m + {add});
    }

    lemma CurrentIs()
      ensures Current() ==
        Shape(chains, Mults(buckets[..]), numItems, idealChainMaxlen, nonidealItems, ineffExpands, noexpand)
    {
    }

    lemma Threshold()
      ensures BKT_CAPACITY_THRESH == 10
    {
    }

    lemma AllCounts(m: set<Elem>)
      requires ChainsOk(m)
      ensures forall j :: 0 <= j < |chains| ==> buckets[j].count == |chains[j]|
    {
      hide ToBkt, NoDup, Chained;
      forall j | 0 <= j < |chains| ensures buckets[j].count == |chains[j]| {
        assert GoodChain(chains[j], buckets[j], j, numBuckets);
      }
    }

    /** All but the bucket of a new element `add` is in place. */
    ghost predicate Pending(add: Elem)
      reads this, buckets, items
    {
      && head != null && ListOk() && add in items && ChainsOk(Elems(items) - {add}) && numItems + 1 == |items|
      && forall e :: e in items ==> e.hashv == hashOf(e.key)
    }

    lemma PendingParts(add: Elem)
      requires Pending(add)
      ensures head != null && ListOk() && add in items && ChainsOk(Elems(items) - {add}) && numItems + 1 == |items|
      ensures forall e :: e in items ==> e.hashv == hashOf(e.key)
    {
    }

    method AddToTable(add: Elem)
      requires Pending(add)
      modifies this`numItems, buckets, this`buckets, this`numBuckets, this`log2NumBuckets, this`idealChainMaxlen,
               this`nonidealItems, this`ineffExpands, this`noexpand, this`chains, items`hhPrev, items`hhNext
      ensures Valid() && (buckets == old(buckets) || fresh(buckets))
      ensures Grows(old(Current()), Current(), add, add.hashv, Elems(items))
    {
      hide *;
      CurrentIs();
      PendingParts(add);
      ghost var m := Elems(items) - {add};
      numItems := numItems + 1;
      CurrentIs();
      ChainParts(m);
      BucketInRange(add.hashv);
      var b := ToBkt(add.hashv, numBuckets);
      ElemsOf(items);
      AddToBkt(b, add, m);
      assert m + {add} == Elems(items);
      MakeValid();
    }

    /** Sets a table up for its first element. */
    method MakeTable(add: Elem)
      modifies this
      ensures numBuckets == buckets.Length == |chains| == 32 && log2NumBuckets == 5
      ensures forall b :: 0 <= b < 32 ==> buckets[b] == Bucket(null, 0, 0) && chains[b] == []
      ensures ChainsOk({}) && fresh(buckets) && tail == add && numItems == 0 && Current() == NewShape()
      ensures items == old(items) && head == old(head)
    {
      hide *;
      tail := add;
      numBuckets := INITIAL_NUM_BUCKETS;
      log2NumBuckets := INITIAL_NUM_BUCKETS_LOG2;
      buckets := new Bucket[INITIAL_NUM_BUCKETS](_ => Bucket(null, 0, 0));
      numItems, idealChainMaxlen, nonidealItems, ineffExpands, noexpand := 0, 0, 0, 0, false;
      chains := seq(INITIAL_NUM_BUCKETS, _ => []);
      NoChains();
      IsNew();
    }

    lemma IsNew()
      requires |chains| == buckets.Length == 32 && numItems == 0 && idealChainMaxlen == 0 && nonidealItems == 0
      requires ineffExpands == 0 && !noexpand && forall b :: 0 <= b < 32 ==> chains[b] == [] && buckets[b] == Bucket(null, 0, 0)
      ensures Current() == NewShape()
    {
    }

    lemma NoChains()
      requires numBuckets == buckets.Length == |chains| == INITIAL_NUM_BUCKETS && log2NumBuckets == INITIAL_NUM_BUCKETS_LOG2
      requires forall b :: 0 <= b < |chains| ==> chains[b] == [] && buckets[b] == Bucket(null, 0, 0)
      ensures ChainsOk({}) && numBuckets == 32 && log2NumBuckets == 5
    {
      assert Bits.Pow2(2) == 4;
      assert Bits.Pow2(4) == 16;
      hide Bits.And, ToBkt;
    }

    /** Starts the list with its first element. */
    method StartList(add: Elem)
      requires Valid() && head == null
      modifies this, add`next, add`prev
      ensures fresh(buckets) && items == [add] && head == add && ListOk() && ChainsOk({}) && numItems == 0
      ensures Current() == NewShape()
    {
      add.next := null;
      add.prev := null;
      MakeTable(add);
      head := add;
      items := [add];
    }

    /** Adds an element behind all others. */
    method Add(add: Elem)
      requires Valid() && add !in items
      modifies this, buckets, items, add
      ensures Valid() && items == old(items) + [add] && (buckets == old(buckets) || fresh(buckets))
      ensures Grows(old(StartShape()), Current(), add, hashOf(add.key), Elems(items))
      ensures numBuckets == |chains| && (old(head) == null ==> numBuckets == 32)
      ensures old(head) != null ==>
        Resized(old(numBuckets), old(chains), old(buckets[..]), old(noexpand), hashOf(add.key), numBuckets)
    {
      hide *;
      StartIs();
      StartSizes();
      ItemsNoDup();
      HashesOk();
      ElemsOf(items);
      ghost var s := items;
      add.hashv := hashOf(add.key);
      SnocElems(s, add);
      if head == null {
        StartList(add);
        assert items == s + [add];
      } else {
        assert ChainsOk(Elems(s));
        AppendList(add);
        assert ChainsOk(Elems(s));
      }
      MakePending(add, s);
      AddToTable(add);
      EndsAdding(add);
      if old(head) != null {
        GrowsResized(old(Current()), old(buckets[..]), Current(), add, add.hashv, Elems(items));
      }
    }

    lemma EndsAdding(add: Elem)
      requires Valid() && head != null
      ensures numBuckets == |chains| == |Current().chains|
      ensures Grows(NewShape(), Current(), add, add.hashv, Elems(items)) ==> numBuckets == 32
    {
      hide ListOk, ChainsOk, Grows, NewShape, Mults;
      ValidParts();
      ChainParts(Elems(items));
      CurrentIs();
      if Grows(NewShape(), Current(), add, add.hashv, Elems(items)) {
        FirstGrows(Current(), add, add.hashv, Elems(items));
      }
    }

    lemma StartIs()
      ensures StartShape() == if head == null then NewShape() else Current()
    {
    }

    lemma StartSizes()
      requires Valid()
      ensures Current().chains == chains && Current().mults == Mults(buckets[..]) && Current().noexpand == noexpand
      ensures head != null ==> numBuckets == |chains| == |buckets[..]|
    {
      hide ListOk, ChainsOk, Mults;
      if head != null {
        ValidParts();
        ChainParts(Elems(items));
      }
    }

    lemma HashesOk()
      requires Valid()
      ensures forall e :: e in items ==> e.hashv == hashOf(e.key)
      ensures head != null ==> ListOk() && ChainsOk(Elems(items)) && numItems == |items| > 0
    {
    }

    lemma MakePending(add: Elem, s: seq<Elem>)
      requires head != null && ListOk() && add in items && numItems == |s| && |items| == |s| + 1 && add !in s
      requires Elems(items) == Elems(s) + {add} && ChainsOk(Elems(s)) && add.hashv == hashOf(add.key)
      requires forall e :: e in s ==> e.hashv == hashOf(e.key)
      ensures Pending(add)
    {
      hide ListOk, ChainsOk;
      assert Elems(items) - {add} == Elems(s);
      forall e | e in items ensures e.hashv == hashOf(e.key) {
        assert e in Elems(items);
      }
    }

    /** Finds the first element that compares greater than `add`. */
    method FirstGreater(add: Elem, cmp: Compare<Elem>) returns (iter: Elem?, ghost k: nat)
      requires ListOk() && head != null
      ensures k <= |items| && iter == (if k < |items| then items[k] else null)
      ensures k < |items| ==> cmp(items[k], add) > 0
      ensures forall i :: 0 <= i < k ==> cmp(items[i], add) <= 0
      ensures iter == null <==> forall i :: 0 <= i < |items| ==> cmp(items[i], add) <= 0
      ensures iter != null ==> iter in items && cmp(iter, add) > 0
    {
      iter, k := head, 0;
      while iter != null
        invariant k <= |items| && iter == (if k < |items| then items[k] else null)
        invariant forall i :: 0 <= i < k ==> cmp(items[i], add) <= 0
        decreases |items| - k
      {
        if cmp(iter, add) > 0 {
          break;
        }
        iter := iter.next;
        k := k + 1;
      }
    }

    /** Links an element into the list in order: before the first element that compares greater. */
    method InsertList(add: Elem, cmp: Compare<Elem>)
      requires ListOk() && head != null && items != [] && add !in items
      modifies this`head, this`tail, this`items, add`prev, add`next, items`next, items`prev
      ensures ListOk() && items == Insert(cmp, old(items), add) && head != null
      ensures Elems(items) == Elems(old(items)) + {add} && |items| == |old(items)| + 1
    {
      hide Insert, ListOk;
      var iter, k := FirstGreater(add, cmp);
      InsertAt(cmp, items, add, k);
      if iter != null {
        InsertBefore(iter, add, k);
      } else {
        AppendList(add);
      }
      ListParts();
    }

    /** Adds an element in order. */
    method AddInorder(add: Elem, cmp: Compare<Elem>)
      requires Valid() && add !in items
      modifies this, buckets, items, add
      ensures Valid() && items == Insert(cmp, old(items), add) && (buckets == old(buckets) || fresh(buckets))
      ensures Grows(old(StartShape()), Current(), add, hashOf(add.key), Elems(items))
      ensures numBuckets == |chains| && (old(head) == null ==> numBuckets == 32)
      ensures old(head) != null ==>
        Resized(old(numBuckets), old(chains), old(buckets[..]), old(noexpand), hashOf(add.key), numBuckets)
    {
      hide *;
      StartIs();
      StartSizes();
      ItemsNoDup();
      HashesOk();
      ElemsOf(items);
      ghost var s := items;
      add.hashv := hashOf(add.key);
      SnocElems(s, add);
      if head == null {
        StartList(add);
        InsertNothing(cmp, add);
      } else {
        assert ChainsOk(Elems(s));
        InsertList(add, cmp);
        assert ChainsOk(Elems(s));
      }
      AddedTo(items, s, add);
      MakePending(add, s);
      AddToTable(add);
      EndsAdding(add);
      if old(head) != null {
        GrowsResized(old(Current()), old(buckets[..]), Current(), add, add.hashv, Elems(items));
      }
    }

    lemma InsertNothing(cmp: Compare<Elem>, add: Elem)
      ensures Insert(cmp, [], add) == [add] == [] + [add]
    {
    }

    /** Adds an element in place of the one with its key, if there is one. */
    method Replace(add: Elem) returns (replaced: Elem?)
      requires Valid() && (add in items ==> forall e :: e in items && e.key == add.key ==> e == add)
      modifies this, buckets, items, add
      ensures Valid() && (buckets == old(buckets) || fresh(buckets))
      ensures replaced == null ==>
        && (forall e :: e in old(items) ==> e.key != add.key) && items == old(items) + [add]
        && Grows(old(StartShape()), Current(), add, hashOf(add.key), Elems(items))
      ensures replaced != null ==>
        && replaced in old(items) && replaced.key == add.key && items == Removed(old(items), replaced) + [add]
        && Grows(if |old(items)| == 1 then NewShape() else Shrunk(old(Current()), replaced, hashOf(add.key)), Current(), add,
                 hashOf(add.key), Elems(items))
    {
      hide ListOk, ChainsOk, Grows, Shrunk, NewShape, Mults, Current;
      replaced := Find(add.key);
      if replaced != null {
        ItemsNoDup();
        Delete(replaced);
        RemovedElems(old(items), replaced);
        RemovedSize(old(items), replaced);
        assert forall i {:trigger items[i]} :: 0 <= i < |items| ==> items[i] in old(items);
      }
      Add(add);
    }

    /** The same, in order. */
    method ReplaceInorder(add: Elem, cmp: Compare<Elem>) returns (replaced: Elem?)
      requires Valid() && (add in items ==> forall e :: e in items && e.key == add.key ==> e == add)
      modifies this, buckets, items, add
      ensures Valid() && (buckets == old(buckets) || fresh(buckets))
      ensures replaced == null ==>
        && (forall e :: e in old(items) ==> e.key != add.key) && items == Insert(cmp, old(items), add)
        && Grows(old(StartShape()), Current(), add, hashOf(add.key), Elems(items))
      ensures replaced != null ==>
        && replaced in old(items) && replaced.key == add.key
        && items == Insert(cmp, Removed(old(items), replaced), add)
        && Grows(if |old(items)| == 1 then NewShape() else Shrunk(old(Current()), replaced, hashOf(add.key)), Current(), add,
                 hashOf(add.key), Elems(items))
    {
      hide ListOk, ChainsOk, Insert, Grows, Shrunk, NewShape, Mults, Current;
      replaced := Find(add.key);
      if replaced != null {
        ItemsNoDup();
        Delete(replaced);
        RemovedElems(old(items), replaced);
        RemovedSize(old(items), replaced);
        assert forall i {:trigger items[i]} :: 0 <= i < |items| ==> items[i] in old(items);
      }
      AddInorder(add, cmp);
    }

    lemma ItemsNoDup()
      requires Valid()
      ensures NoDup(items) && (head == null <==> items == [])
    {
    }

    // ---------- Sorting ----------

    /** Relinks the application-order list. */
    method SortList(cmp: Compare<Elem>)
      requires ListOk() && head != null
      modifies this`head, this`tail, this`items, items`next, items`prev
      ensures ListOk() && head != null && items == SortFrom(cmp, old(items), 1)
      ensures |items| == |old(items)| && Elems(items) == Elems(old(items))
    {
      hide SortFrom, Merges, Linked;
      SortPermutes(cmp, items, 1);
      ghost var r := SortFrom(cmp, items, 1);
      ListSort.SameElems(r, items);
      ListSort.SameSize(r, items);
      head, tail := ListSort.Sort(head, cmp, items);
      items := r;
    }

    /** Sorts the application-order list in place. The bucket chains stay as they are. */
    method Sort(cmp: Compare<Elem>)
      requires Valid()
      modifies this`head, this`tail, this`items, items`next, items`prev
      ensures Valid() && items == SortFrom(cmp, old(items), 1)
    {
      hide *;
      if head != null {
        ValidParts();
        SortList(cmp);
        ElemsOf(items);
        ElemsOf(old(items));
        assert ChainsOk(Elems(old(items)));
        MakeValid();
      } else {
        NothingToSort(cmp);
        ItemsNoDup();
      }
    }

    // ---------- Iteration, clearing, counting ----------

    /** One round of an iteration: the body deletes the current element when it wants to, then the
        one behind the saved element is saved. */
    method Visit(el: Elem, tmp: Elem?, drop: Elem -> bool, ghost s: seq<Elem>, ghost k: nat)
      returns (el': Elem?, tmp': Elem?)
      requires Valid() && NoDup(s) && 0 < k <= |s| && el == s[k - 1] && items == Kept(drop, s[..k - 1]) + s[k - 1..]
      requires tmp == ElemAt(s, k)
      modifies this`head, this`tail, this`items, this`chains, this`numItems, buckets,
               s`next, s`prev, s`hhNext, s`hhPrev
      ensures Valid() && items == Kept(drop, s[..k]) + s[k..]
      ensures el' == ElemAt(s, k) && tmp' == ElemAt(s, k + 1)
    {
      hide *;
      KeptStep(drop, s, k - 1);
      KeptRest(drop, s, k - 1);
      ItemsWithin(items, s);
      if drop(el) {
        Delete(el);
      }
      ElemAtIs(s, k);
      ElemAtIs(s, k + 1);
      el', tmp' := tmp, tmp;
      if el' != null {
        IterLinks(|Kept(drop, s[..k])|);
        tmp' := el'.next;
      }
    }

    method IterStart() returns (el: Elem?, tmp: Elem?)
      requires Valid()
      ensures el == ElemAt(items, 0) && tmp == ElemAt(items, 1)
    {
      hide *;
      ItemsNoDup();
      ElemAtIs(items, 0);
      ElemAtIs(items, 1);
      el, tmp := head, null;
      if head != null {
        IterLinks(0);
        tmp := head.next;
      }
    }

    /** Iterates over all elements, and may delete the current one. */
    method IterDelete(drop: Elem -> bool) returns (visited: seq<Elem>)
      requires Valid()
      modifies this`head, this`tail, this`items, this`chains, this`numItems, buckets,
               items`next, items`prev, items`hhNext, items`hhPrev
      ensures visited == old(items)
      ensures Valid() && items == Kept(drop, old(items))
      ensures forall e :: e in items <==> e in old(items) && !drop(e)
    {
      hide *;
      ItemsNoDup();
      ghost var s, k := items, 0;
      var el, tmp := IterStart();
      visited := [];
      KeptNone(drop, s);
      while el != null
        invariant Valid() && k <= |s|
        invariant visited == s[..k]
        invariant items == Kept(drop, s[..k]) + s[k..]
        invariant el == ElemAt(s, k) && tmp == ElemAt(s, k + 1)
        decreases |s| - k
      {
        ElemAtIs(s, k);
        TakeSnoc(s, k);
        visited := visited + [el];
        k := k + 1;
        el, tmp := Visit(el, tmp, drop, s, k);
      }
      ElemAtIs(s, k);
      KeptAll(drop, s);
      KeptElems(drop, s);
    }

    lemma IterLinks(i: nat)
      requires Valid() && i < |items|
      ensures items[i].next == (if i + 1 < |items| then items[i + 1] else null) && head == items[0]
    {
    }

    /** Drops the table; the elements themselves are left as they are. */
    method Clear()
      requires Valid()
      modifies this`head, this`items
      ensures Valid() && items == []
    {
      if head != null {
        head := null;
        items := [];
      }
    }

    method Count() returns (n: nat)
      requires Valid()
      ensures n == |items|
    {
      n := if head != null then numItems else 0;
    }

    // ---------- The integrity check ----------

    /** Checks the chain of one bucket, which starts at its head and follows the next links: its back
        links and its count. */
    method CheckBucket(i: nat, ghost c: seq<Elem>) returns (ok: bool, bktCount: nat)
      requires i < buckets.Length && buckets[i].head == First(c) && NextLinked(c)
      ensures bktCount == |c|
      ensures ok <==> buckets[i].count == |c| && BackLinked(c)
    {
      ok, bktCount := true, 0;
      var prev, thh := null, buckets[i].head;
      while thh != null
        invariant bktCount <= |c| && thh == NextIn(c, bktCount - 1) && prev == PrevIn(c, bktCount)
        invariant ok <==> forall t {:trigger c[t].hhPrev} :: 0 <= t < bktCount ==> c[t].hhPrev == PrevIn(c, t)
        decreases |c| - bktCount
      {
        assert thh == c[bktCount];
        if prev != thh.hhPrev {
          ok := false;
        }
        bktCount := bktCount + 1;
        prev := thh;
        thh := thh.hhNext;
      }
      if buckets[i].count != bktCount {
        ok := false;
      }
    }

    /** Checks the back links of the application-order list, and its length against the item count. */
    method CheckList(ghost s: seq<Elem>) returns (ok: bool)
      requires head == First(s) && forall t {:trigger s[t].next} :: 0 <= t < |s| ==> s[t].next == NextIn(s, t)
      ensures ok <==> numItems == |s| && forall t {:trigger s[t].prev} :: 0 <= t < |s| ==> s[t].prev == PrevIn(s, t)
    {
      ok := true;
      var count, prev, thh := 0, null, head;
      while thh != null
        invariant 0 <= count <= |s| && thh == NextIn(s, count - 1) && prev == PrevIn(s, count)
        invariant ok <==> forall t {:trigger s[t].prev} :: 0 <= t < count ==> s[t].prev == PrevIn(s, t)
        decreases |s| - count
      {
        assert thh == s[count];
        count := count + 1;
        if prev != thh.prev {
          ok := false;
        }
        prev := thh;
        thh := thh.next;
      }
      if count != numItems {
        ok := false;
      }
    }

    /** What the integrity check can follow: from every bucket and from the head, next links lead to an end. */
    ghost predicate Traversable(cs: seq<seq<Elem>>, s: seq<Elem>)
      reads this, buckets, s, Members(cs)
    {
      && numBuckets == buckets.Length == |cs| && head == First(s)
      && (forall i :: 0 <= i < |cs| ==> (MemberOf(cs, i); buckets[i].head == First(cs[i]) && NextLinked(cs[i])))
      && (forall t {:trigger s[t].next} :: 0 <= t < |s| ==> s[t].next == NextIn(s, t))
    }

    /** What the integrity check demands. */
    ghost predicate Sound(cs: seq<seq<Elem>>, s: seq<Elem>)
      reads this, buckets, s, Members(cs)
      requires numBuckets == buckets.Length == |cs|
    {
      && (forall i :: 0 <= i < |cs| ==> (MemberOf(cs, i); buckets[i].count == |cs[i]| && BackLinked(cs[i])))
      && numItems == |Flat(cs)| && numItems == |s|
      && (forall t {:trigger s[t].prev} :: 0 <= t < |s| ==> s[t].prev == PrevIn(s, t))
    }

    /** The table's own integrity check finds a fault exactly if there is one. */
    method Fsck(ghost cs: seq<seq<Elem>>, ghost s: seq<Elem>) returns (ok: bool)
      requires head != null ==> Traversable(cs, s)
      ensures head == null ==> ok
      ensures head != null ==> (ok <==> Sound(cs, s))
    {
      ok := true;
      if head != null {
        var count := 0;
        assert cs[..0] == [];
        FlatNone(cs);
        for i := 0 to numBuckets
          invariant count == |Flat(cs[..i])|
          invariant ok <==> forall h :: 0 <= h < i ==> buckets[h].count == |cs[h]| && BackLinked(cs[h])
        {
          hide Flat, BackLinked, NextLinked;
          var bktOk, bktCount := CheckBucket(i, cs[i]);
          ok := ok && bktOk;
          FlatSnoc(cs, i);
          count := count + bktCount;
        }
        assert cs[..numBuckets] == cs;
        if count != numItems {
          ok := false;
        }
        var listOk := CheckList(s);
        ok := ok && listOk;
      }
    }

    /** A valid table passes. */
    lemma ValidIsSound()
      requires Valid() && head != null
      ensures Traversable(chains, items) && Sound(chains, items)
    {
      hide ToBkt, Flat;
      AllCounted();
      ValidParts();
      ChainParts(Elems(items));
      forall i | 0 <= i < |chains|
        ensures buckets[i].head == First(chains[i]) && NextLinked(chains[i])
        ensures buckets[i].count == |chains[i]| && BackLinked(chains[i])
      {
        ChainOf(i, Elems(items));
      }
    }

    /** The chains together hold as many elements as the list. */
    lemma AllCounted()
      requires Valid() && head != null
      ensures |Flat(chains)| == |items|
    {
      hide *;
      ValidParts();
      ItemsNoDup();
      ChainParts(Elems(items));
      ChainFacts(Elems(items));
      OldElements(Elems(items));
      assert chains[..|chains|] == chains;
      FlatNoDup(chains, Elems(items), numBuckets, |chains|);
      FlatWithin(chains, |chains|, Elems(items), numBuckets);
      FlatAll(chains, Elems(items), numBuckets);
      SameLength(Flat(chains), items);
    }
  }

  lemma NothingToSort(cmp: Compare<Elem>)
    ensures SortFrom(cmp, [], 1) == []
  {
  }
}