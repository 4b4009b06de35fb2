/** Accesses that may cross a page boundary, through a bounce buffer; and whole runs of accesses. */
module CrossPage {
  import Bits
  import opened Wrappers
  import opened Addresses
  import opened ByteSeqs
  import opened Store
  import PageCache

  const MAX_ACCESS_SIZE: nat := 64

  /** What a link returns: a page-cache address, or the bounce buffer. */
  datatype Linked = InCache(addr: nat) | InBuffer

  /** The next page starts where this one ends. */
  lemma NextPage(a: nat, bits: nat)
    ensures var first := Bits.Pow2(bits) - OffsetOf(a, bits);
      first > 0 && PageOf(a + first, bits) == PageOf(a, bits) + 1 && OffsetOf(a + first, bits) == 0
  {
    hide Start, PageOf, OffsetOf, Bits.Pow2;
    Parts(a, bits);
    var p := PageOf(a, bits);
    StartSum(p, 1, bits);
    StartOne(bits);
    PartsUnique(p + 1, 0, bits);
  }

  class BounceBuffer {
    const store: Store
    const buffer: array<Byte>
    /** The pending access: its address and size. */
    var access: Option<nat>
    var accessSize: nat

    /** An access of `size` bytes at `a` fits the buffer and crosses into the next page. */
    ghost predicate Crosses(a: nat, size: nat) {
      && a + size <= store.Size() && size <= MAX_ACCESS_SIZE && size <= Bits.Pow2(store.bits)
      && !store.InPage(a, size)
    }

    ghost predicate Ready()
      reads this, store, store.tlb
    {
      && store.Valid() && buffer.Length == MAX_ACCESS_SIZE && (buffer as object) != store.tlb
      && (access.Some? ==> access.value >= store.storageBase && Crosses(access.value - store.storageBase, accessSize))
    }

    constructor (store: Store)
      requires store.Valid()
      ensures Ready() && access == None && this.store == store && fresh(buffer) && buffer.Length == 64
    {
      this.store := store;
      buffer := new Byte[MAX_ACCESS_SIZE](_ => 0);
      access, accessSize := None, 0;
    }

    /** The two parts of a crossing access. */
    lemma CrossParts(a: nat, size: nat) returns (first: nat)
      requires store.Geometry() && Crosses(a, size)
      ensures first == Bits.Pow2(store.bits) - OffsetOf(a, store.bits) && 0 < first < size <= MAX_ACCESS_SIZE
      ensures a + first < store.Size() && a < store.Size() && a + size <= store.Size()
      ensures store.InPage(a, first) && store.InPage(a + first, size - first)
      ensures PageOf(a + first, store.bits) == PageOf(a, store.bits) + 1
    {
      hide Start, PageOf, OffsetOf, Bits.Pow2;
      Parts(a, store.bits);
      NextPage(a, store.bits);
      first := Bits.Pow2(store.bits) - OffsetOf(a, store.bits);
    }

    /** Links both pages of a crossing access. The first address stays good: its page was pinned when
        the second page was made resident. */
    method LinkBoth(ptr: nat, first: nat, isDirty: bool, ghost a: nat) returns (p: nat, q: nat)
      requires store.Valid() && ptr == store.storageBase + a && a < store.Size() && a + first < store.Size()
      modifies store`cache, store`pages, store.tlb
      ensures store.Valid() && store.Mem() == old(store.Mem())
      ensures store.Points(p, a) && store.Points(q, a + first)
      ensures isDirty ==> store.Writable(PageOf(a, store.bits)) && store.Writable(PageOf(a + first, store.bits))
    {
      hide *;
      p := store.PageFault(ptr, isDirty, a, 0, a, false);
      q := store.PageFault(ptr + first, isDirty, a + first, p, a, isDirty);
      store.HeldIs(p, a, isDirty);
      store.HeldIs(q, a + first, isDirty);
    }

    /** Copies bytes into the buffer. */
    method Fill(at: nat, bs: seq<Byte>)
      requires at + |bs| <= buffer.Length
      modifies buffer
      ensures buffer[..] == Splice(old(buffer[..]), at, bs)
    {
      forall i | 0 <= i < |bs| {
        buffer[at + i] := bs[i];
      }
    }

    /** Links an access. One that crosses a page boundary gets a copy of its bytes in the buffer. */
    method LinkCrossPage(ptr: nat, size: nat, isDirty: bool, ghost a: nat) returns (res: Linked)
      requires Ready() && ptr == store.storageBase + a && a < store.Size()
      requires store.InPage(a, size) || Crosses(a, size)
      modifies this, buffer, store`cache, store`pages, store.tlb
      ensures Ready() && store.Mem() == old(store.Mem()) && |store.Mem()| == store.Size()
      ensures res.InBuffer? <==> Crosses(a, size)
      ensures match res
        case InBuffer => access == Some(ptr) && accessSize == size && buffer[..size] == store.Mem()[a..a + size]
        case InCache(addr) =>
          && access == old(access) && accessSize == old(accessSize)
          && store.Points(addr, a) && (isDirty ==> store.Writable(PageOf(a, store.bits)))
    {
      hide *;
      ReadyParts();
      store.ValidParts();
      store.GeometryParts();
      store.SizeIs();
      store.InPageIs(a, size);
      CrossesIs(a, size);
      store.MStorageIs(ptr);
      PageParts(a, store.bits, store.numPages);
      var offset := PageOffset(store.MStoragePage(ptr), store.bits);
      if offset + size > Bits.Pow2(store.bits) {
        var first := Bits.Pow2(store.bits) - offset;
        ghost var first' := CrossParts(a, size);
        var p, q := LinkBoth(ptr, first, isDirty, a);
        var x := store.Read(p, first, a);
        var y := store.Read(q, size - first, a + first);
        Fill(0, x);
        Fill(first, y);
        SplitSlice(store.Mem(), a, first, size - first);
        Filled(old(buffer[..]), x, y);
        access, accessSize := Some(ptr), size;
        res := InBuffer;
      } else {
        var addr := store.Link(ptr, size, isDirty, a);
        res := InCache(addr);
      }
      store.MemSize();
      MakeReady();
    }

    /** Writes a pending access back to its two pages. */
    method Writeback()
      requires Ready()
      modifies this, store`cache, store`pages, store.tlb
      ensures Ready() && access == None && |old(store.Mem())| == store.Size()
      ensures match old(access)
        case None => store.Mem() == old(store.Mem())
        case Some(ptr) =>
          store.Mem() == Splice(old(store.Mem()), ptr - store.storageBase, buffer[..old(accessSize)])
    {
      hide *;
      ReadyParts();
      store.MemSize();
      match access
      case None =>
      case Some(ptr) =>
        var size := accessSize;
        ghost var a := ptr - store.storageBase;
        access, accessSize := None, 0;
        store.ValidParts();
        store.GeometryParts();
        store.SizeIs();
        store.MStorageIs(ptr);
        ghost var first' := CrossParts(a, size);
        PageParts(a, store.bits, store.numPages);
        var first := Bits.Pow2(store.bits) - PageOffset(store.MStoragePage(ptr), store.bits);
        var p, q := LinkBoth(ptr, first, true, a);
        store.PointsIs(q, a + first);
        SplitBuffer(buffer[..], first, size);
        ghost var c := store.cache;
        store.Write(p, buffer[..first], a);
        store.PointsIs(q, a + first);
        SameFrames(q, a + first, c);
        store.Write(q, buffer[first..size], a + first);
        SpliceTwiceAt(old(store.Mem()), a, buffer[..first], a + first, buffer[first..size], buffer[..size]);
        MakeReady();
    }

    lemma ReadyParts()
      requires Ready()
      ensures store.Valid() && buffer.Length == MAX_ACCESS_SIZE && (buffer as object) != store.tlb
      ensures access.Some? ==> access.value >= store.storageBase && Crosses(access.value - store.storageBase, accessSize)
    {
    }

    lemma MakeReady()
      requires store.Valid() && buffer.Length == MAX_ACCESS_SIZE && (buffer as object) != store.tlb
      requires access.Some? ==> access.value >= store.storageBase && Crosses(access.value - store.storageBase, accessSize)
      ensures Ready()
    {
    }

    lemma CrossesIs(a: nat, size: nat)
      ensures Crosses(a, size) <==>
        a + size <= store.Size() && size <= MAX_ACCESS_SIZE && size <= Bits.Pow2(store.bits) && !store.InPage(a, size)
    {
    }

    lemma SplitBuffer(b: seq<Byte>, first: nat, size: nat)
      requires first <= size <= |b|
      ensures b[..size] == b[..first] + b[first..size]
    {
    }

    lemma Filled(b: seq<Byte>, x: seq<Byte>, y: seq<Byte>)
      requires |x| + |y| <= |b|
      ensures Splice(Splice(b, 0, x), |x|, y)[..|x| + |y|] == x + y
    {
    }

    lemma SameFrames(res: int, a: nat, c: PageCache.Cache)
      requires store.PointsIn(c, res, a) && c.frameOf == store.cache.frameOf
      ensures store.Points(res, a)
    {
    }

    // ---------- Runs ----------

    /** A store through a link: link, write the bytes where the link points, write a pending access back. */
    method StoreBytes(ptr: nat, bs: seq<Byte>, ghost a: nat)
      requires Ready() && access == None && ptr == store.storageBase + a && a < store.Size()
      requires a + |bs| <= store.Size() && (store.InPage(a, |bs|) || Crosses(a, |bs|))
      modifies this, buffer, store`cache, store`pages, store.tlb
      ensures Ready() && access == None
      ensures a + |bs| <= |old(store.Mem())| && store.Mem() == Splice(old(store.Mem()), a, bs)
    {
      hide *;
      CrossesIs(a, |bs|);
      var res := LinkCrossPage(ptr, |bs|, true, a);
      match res {
        case InBuffer =>
          ReadyParts();
          ghost var was := buffer[..];
          Fill(0, bs);
          Written(was, bs);
        case InCache(addr) =>
          ReadyParts();
          store.Write(addr, bs, a);
          MakeReady();
      }
      Writeback();
    }

    /** A load through a link. */
    method LoadBytes(ptr: nat, size: nat, ghost a: nat) returns (bs: seq<Byte>)
      requires Ready() && access == None && ptr == store.storageBase + a && a < store.Size()
      requires a + size <= store.Size() && (store.InPage(a, size) || Crosses(a, size))
      modifies this, buffer, store`cache, store`pages, store.tlb
      ensures Ready() && access == None && store.Mem() == old(store.Mem())
      ensures a + size <= |store.Mem()| && bs == store.Mem()[a..a + size]
    {
      hide *;
      CrossesIs(a, size);
      var res := LinkCrossPage(ptr, size, false, a);
      match res {
        case InBuffer =>
          ReadyParts();
          bs := buffer[..size];
          SpliceSame(store.Mem(), a, size);
        case InCache(addr) =>
          ReadyParts();
          bs := store.Read(addr, size, a);
      }
      Writeback();
    }

    lemma Written(was: seq<Byte>, bs: seq<Byte>)
      requires |bs| <= |was|
      ensures Splice(was, 0, bs)[..|bs|] == bs
    {
    }

    ghost predicate Fits(op: Access) {
      match op
      case Load(a, size) => a < store.Size() && a + size <= store.Size() && (store.InPage(a, size) || Crosses(a, size))
      case Store(a, bs) => a < store.Size() && a + |bs| <= store.Size() && (store.InPage(a, |bs|) || Crosses(a, |bs|))
    }

    /** Every run of accesses, whatever pages come and go meanwhile, reads and writes a flat memory. */
    method Execute(ops: seq<Access>) returns (outs: seq<seq<Byte>>)
      requires Ready() && access == None && forall i :: 0 <= i < |ops| ==> Fits(ops[i])
      modifies this, buffer, store`cache, store`pages, store.tlb
      ensures Ready() && access == None
      ensures InRange(ops, |old(store.Mem())|) && (store.Mem(), outs) == Replay(ops, old(store.Mem()))
      decreases |ops|
    {
      hide *;
      SizeInRange(ops);
      RangeStep(ops, |store.Mem()|);
      outs := [];
      ReplayStep(ops, store.Mem());
      if ops != [] {
        FitsIs(ops[0]);
        match ops[0] {
          case Load(a, size) =>
            var bs := LoadBytes(store.storageBase + a, size, a);
            outs := [bs];
          case Store(a, bs) =>
            SpliceLength(store.Mem(), a, bs);
            StoreBytes(store.storageBase + a, bs, a);
        }
        var rest := Execute(ops[1..]);
        assert [] + rest == rest;
        outs := outs + rest;
      }
    }

    lemma FitsIs(op: Access)
      ensures Fits(op) <==> match op
        case Load(a, size) => a < store.Size() && a + size <= store.Size() && (store.InPage(a, size) || Crosses(a, size))
        case Store(a, bs) => a < store.Size() && a + |bs| <= store.Size() && (store.InPage(a, |bs|) || Crosses(a, |bs|))
    {
    }

    lemma SizeInRange(ops: seq<Access>)
      requires Ready() && forall i :: 0 <= i < |ops| ==> Fits(ops[i])
      ensures InRange(ops, |store.Mem()|)
    {
      store.MemSize();
    }
  }

  // ---------- The flat memory ----------

  datatype Access = Load(a: nat, size: nat) | Store(a: nat, bs: seq<Byte>)

  predicate InRange(ops: seq<Access>, n: nat) {
    forall i :: 0 <= i < |ops| ==> ops[i].a + (match ops[i] case Load(_, size) => size case Store(_, bs) => |bs|) <= n
  }

  lemma RangeStep(ops: seq<Access>, n: nat)
    requires InRange(ops, n)
    ensures ops != [] ==> InRange(ops[1..], n) && (ops[0].Store? ==> ops[0].a + |ops[0].bs| <= n)
  {
  }

  /** What a run of accesses does to a flat memory, and what its loads return. */
  function Replay(ops: seq<Access>, m: seq<Byte>): (seq<Byte>, seq<seq<Byte>>)
    requires InRange(ops, |m|)
    decreases |ops|
  {
    if ops == [] then (m, [])
    else
      match ops[0]
      case Load(a, size) =>
        var (m', outs) := Replay(ops[1..], m);
        (m', [m[a..a + size]] + outs)
      case Store(a, bs) => Replay(ops[1..], Splice(m, a, bs))
  }

  lemma ReplayStep(ops: seq<Access>, m: seq<Byte>)
    requires InRange(ops, |m|)
    ensures ops == [] ==> Replay(ops, m) == (m, [])
    ensures ops != [] && ops[0].Load? ==>
      var r := Replay(ops[1..], m); Replay(ops, m) == (r.0, [m[ops[0].a..ops[0].a + ops[0].size]] + r.1)
    ensures ops != [] && ops[0].Store? ==> Replay(ops, m) == Replay(ops[1..], Splice(m, ops[0].a, ops[0].bs))
  {
  }
}
