/** A table with its Bloom filter: the filter saves lookups and never hides an element. */
module FilteredTable {
  import Bloom
  import opened HashElems
  import opened HashTable
  import opened MergeSort
  import opened OrderedInsert

  /** Every element's hash value has been added to the filter. */
  ghost predicate Covers(t: Table, f: Bloom.Filter)
    reads t, f
  {
    (f.bv as object) != t.buckets &&
    forall i {:trigger t.items[i]} :: 0 <= i < |t.items| ==> t.hashOf(t.items[i].key) in f.values
  }

  class FilteredTable {
    const table: Table
    const nbits: nat
    /** It comes and goes with the table. */
    var filter: Bloom.Filter?

    constructor (hashOf: Key -> nat, nbits: nat)
      ensures Valid() && table.items == [] && table.hashOf == hashOf && this.nbits == nbits
      ensures fresh(table) && fresh(table.buckets)
    {
      table := new Table(hashOf);
      this.nbits := nbits;
      filter := null;
      new;
      hide *;
      HeadIs();
      MakeValid();
    }

    ghost function FilterParts(): set<object>
      reads this, filter
    {
      if filter == null then {} else {filter, filter.bv}
    }

    ghost predicate Valid()
      reads this, table, table.buckets, table.items, filter, if filter == null then {} else {filter.bv}
    {
      && table.Valid() && (filter == null <==> table.head == null)
      && (filter != null ==> filter.Valid() && filter.nbits == nbits && Covers(table, filter))
    }

    lemma ValidParts()
      requires Valid()
      ensures table.Valid() && (filter == null <==> table.head == null)
      ensures filter != null ==> filter.Valid() && filter.nbits == nbits && Covers(table, filter)
      ensures table.head == null <==> table.items == []
    {
      HeadIs();
    }

    lemma MakeValid()
      requires table.Valid() && (filter == null <==> table.head == null)
      requires filter != null ==> filter.Valid() && filter.nbits == nbits && Covers(table, filter)
      ensures Valid()
    {
    }

    lemma HeadIs()
      requires table.Valid()
      ensures table.head == null <==> table.items == []
    {
    }

    /** Looks a key up; a bucket is searched only when the filter knows the hash value. */
    method Find(key: Key) returns (out: Elem?)
      requires Valid()
      ensures out != null ==> out in table.items && out.key == key
      ensures out == null ==> forall e :: e in table.items ==> e.key != key
    {
      hide Bloom.Bit;
      ValidParts();
      out := null;
      if filter != null {
        var found := filter.Test(table.hashOf(key));
        if found {
          out := table.Find(key);
        } else {
          forall e | e in table.items ensures e.key != key {
            var i :| 0 <= i < |table.items| && table.items[i] == e;
          }
        }
      }
    }

    /** What the filter holds once an element with hash value `hashv` has come: a new table starts with
        an empty one. */
    twostate predicate FilterAdded(hashv: nat)
      reads this, filter
    {
      && filter != null && (old(filter) != null ==> filter == old(filter)) && (old(filter) == null ==> fresh(filter))
      && filter.values == (if old(filter) == null then {} else old(filter.values)) + {hashv}
    }

    /** Makes the filter of a new table. */
    method MakeFilter()
      requires Valid()
      modifies this`filter
      ensures filter != null && filter.Valid() && filter.nbits == nbits && Covers(table, filter)
      ensures old(filter) != null ==> filter == old(filter)
      ensures old(filter) == null ==> fresh(filter) && fresh(filter.bv) && filter.values == {}
    {
      hide Bloom.Bit, Bloom.Filter.Valid, Table.Valid;
      ValidParts();
      if filter == null {
        filter := new Bloom.Filter(nbits);
      }
    }

    /** Adds the hash value of an element that has come to the table. */
    method Cover(add: Elem)
      requires table.Valid() && filter != null && filter.Valid() && filter.nbits == nbits && add in table.items
      requires (filter.bv as object) != table.buckets && table.items != []
      requires forall e :: e in table.items && e != add ==> table.hashOf(e.key) in filter.values
      modifies filter, filter.bv
      ensures Valid() && filter.values == old(filter.values) + {table.hashOf(add.key)}
    {
      hide Bloom.Bit, Bloom.Filter.Valid, Table.Valid;
      filter.Add(table.hashOf(add.key));
      assert table.Valid();
      HeadIs();
      MakeValid();
    }

    lemma AllCovered(items: seq<Elem>)
      requires filter != null && filter.Valid() && Covers(table, filter) && items == table.items
      ensures forall e :: e in items ==> table.hashOf(e.key) in filter.values
      ensures (filter.bv as object) != table.buckets
    {
      forall e | e in items ensures table.hashOf(e.key) in filter.values {
        var i :| 0 <= i < |items| && items[i] == e;
        assert table.items[i] == e;
      }
    }

    method Add(add: Elem)
      requires Valid() && add !in table.items
      modifies this, table, table.buckets, table.items, add, FilterParts()
      ensures Valid() && table.items == old(table.items) + [add] && FilterAdded(table.hashOf(add.key))
      ensures (table.buckets == old(table.buckets) || fresh(table.buckets)) && fresh(FilterParts() - old(FilterParts()))
    {
      hide Bloom.Bit, Bloom.Filter.Valid, Table.Valid, Covers;
      ValidParts();
      MakeFilter();
      AllCovered(table.items);
      table.Add(add);
      Cover(add);
    }

    method AddInorder(add: Elem, cmp: Compare<Elem>)
      requires Valid() && add !in table.items
      modifies this, table, table.buckets, table.items, add, FilterParts()
      ensures Valid() && table.items == Insert(cmp, old(table.items), add) && FilterAdded(table.hashOf(add.key))
      ensures (table.buckets == old(table.buckets) || fresh(table.buckets)) && fresh(FilterParts() - old(FilterParts()))
    {
      hide Bloom.Bit, Bloom.Filter.Valid, Table.Valid, Covers, Insert;
      ValidParts();
      MakeFilter();
      AllCovered(table.items);
      ghost var s := table.items;
      table.AddInorder(add, cmp);
      InsertElems(cmp, s, add);
      Cover(add);
    }

    /** Deleting leaves the filter alone; with the last element it goes. */
    method Delete(del: Elem)
      requires Valid() && del in table.items
      modifies this`filter, table, table.buckets, table.items
      ensures Valid() && table.items == Removed(old(table.items), del) && table.buckets == old(table.buckets)
      ensures filter == if table.items == [] then null else old(filter)
      ensures filter != null ==> filter.values == old(filter.values)
    {
      hide Bloom.Bit, Bloom.Filter.Valid, Table.Valid, Removed, Covers;
      ValidParts();
      AllCovered(table.items);
      table.ItemsNoDup();
      table.Delete(del);
      RemovedElems(old(table.items), del);
      HeadIs();
      if table.head == null {
        filter := null;
      } else {
        assert filter.Valid();
        MakeCovers();
      }
      MakeValid();
    }

    lemma MakeCovers()
      requires filter != null && (filter.bv as object) != table.buckets
      requires forall e :: e in table.items ==> table.hashOf(e.key) in filter.values
      ensures Covers(table, filter)
    {
    }

    /** Adds an element in place of the one with its key, if there is one. */
    method Replace(add: Elem) returns (replaced: Elem?)
      requires Valid() && (add in table.items ==> forall e :: e in table.items && e.key == add.key ==> e == add)
      modifies this, table, table.buckets, table.items, add, FilterParts()
      ensures Valid()
      ensures replaced == null ==>
        (forall e :: e in old(table.items) ==> e.key != add.key) && table.items == old(table.items) + [add]
      ensures replaced != null ==>
        && replaced in old(table.items) && replaced.key == add.key
        && table.items == Removed(old(table.items), replaced) + [add]
    {
      hide Bloom.Bit, Bloom.Filter.Valid, Table.Valid, Covers, Removed;
      ValidParts();
      replaced := Find(add.key);
      if replaced != null {
        table.ItemsNoDup();
        Delete(replaced);
        RemovedElems(old(table.items), replaced);
        assert forall i {:trigger table.items[i]} :: 0 <= i < |table.items| ==> table.items[i] in old(table.items);
      }
      Add(add);
    }

    /** The same, in order. */
    method ReplaceInorder(add: Elem, cmp: Compare<Elem>) returns (replaced: Elem?)
      requires Valid() && (add in table.items ==> forall e :: e in table.items && e.key == add.key ==> e == add)
      modifies this, table, table.buckets, table.items, add, FilterParts()
      ensures Valid()
      ensures replaced == null ==>
        (forall e :: e in old(table.items) ==> e.key != add.key) && table.items == Insert(cmp, old(table.items), add)
      ensures replaced != null ==>
        && replaced in old(table.items) && replaced.key == add.key
        && table.items == Insert(cmp, Removed(old(table.items), replaced), add)
    {
      hide Bloom.Bit, Bloom.Filter.Valid, Table.Valid, Covers, Removed, Insert;
      ValidParts();
      replaced := Find(add.key);
      if replaced != null {
        table.ItemsNoDup();
        Delete(replaced);
        RemovedElems(old(table.items), replaced);
        assert forall i {:trigger table.items[i]} :: 0 <= i < |table.items| ==> table.items[i] in old(table.items);
      }
      AddInorder(add, cmp);
    }

    /** Drops the table and its filter. */
    method Clear()
      requires Valid()
      modifies this`filter, table`head, table`items
      ensures Valid() && table.items == [] && filter == null
    {
      hide Bloom.Bit, Bloom.Filter.Valid, Table.Valid, Covers;
      table.Clear();
      HeadIs();
      filter := null;
      MakeValid();
    }
  }
}
