/** A process with native memory and the stores 0, 1 and 2: pointers, what they are linked to, and
    reading and writing through linked pointers. */
module Process {
  import opened Addresses
  import opened ByteSeqs
  import opened Store
  import opened FlatOps
  import Links
  import Tlb

  /** A pointer is native, or tagged with a store and leads to byte `a` of it. */
  datatype Ptr = Native(i: nat) | Tagged(k: nat, a: nat) {
    function Off(): nat {
      if Native? then i else a
    }

    function Plus(n: nat): Ptr {
      if Native? then Native(i + n) else Tagged(k, a + n)
    }

    function Area(): Area {
      if Native? then NativeArea else StoreArea(k)
    }
  }

  datatype Area = NativeArea | StoreArea(k: nat)

  /** What the hardware can follow: a native address, or one in a page cache. */
  datatype Raw = InNative(i: nat) | InFrame(k: nat, addr: nat) {
    function Plus(n: nat): Raw {
      if InNative? then InNative(i + n) else InFrame(k, addr + n)
    }
  }

  const NATIVE_CHUNK: nat := 0x4000_0000

  class Process {
    const native: array<Byte>
    const s0: Store
    const s1: Store
    const s2: Store

    constructor (native: array<Byte>, s0: Store, s1: Store, s2: Store)
      requires s0.Valid() && s1.Valid() && s2.Valid()
      requires s0 != s1 && s0 != s2 && s1 != s2 && s0.tlb != s1.tlb && s0.tlb != s2.tlb && s1.tlb != s2.tlb
      requires (native as object) != s0.tlb && (native as object) != s1.tlb && (native as object) != s2.tlb
      ensures Ok() && this.native == native && this.s0 == s0 && this.s1 == s1 && this.s2 == s2
    {
      this.native, this.s0, this.s1, this.s2 := native, s0, s1, s2;
    }

    function At(k: nat): Store {
      if k == 0 then s0 else if k == 1 then s1 else s2
    }

    ghost predicate Apart() {
      && s0 != s1 && s0 != s2 && s1 != s2 && s0.tlb != s1.tlb && s0.tlb != s2.tlb && s1.tlb != s2.tlb
      && (native as object) != s0.tlb && (native as object) != s1.tlb && (native as object) != s2.tlb
    }

    ghost predicate Ok()
      reads s0, s0.tlb, s1, s1.tlb, s2, s2.tlb
    {
      Apart() && s0.Valid() && s1.Valid() && s2.Valid()
    }

    /** The flat memory of an area. */
    ghost function Mem(area: Area): seq<Byte>
      reads native, s0, s1, s2
    {
      match area
      case NativeArea => native[..]
      case StoreArea(k) => At(k).Mem()
    }

    /** `n` bytes from a pointer on exist. */
    ghost predicate InRange(p: Ptr, n: nat)
    {
      match p
      case Native(i) => i + n <= native.Length
      case Tagged(k, a) => k < 3 && a < At(k).Size() && a + n <= At(k).Size()
    }

    /** `p` can be used through `r`, for writing if `w`. */
    ghost predicate Held(r: Raw, p: Ptr, w: bool)
      reads s0`cache, s0.tlb, s1`cache, s1.tlb, s2`cache, s2.tlb
    {
      match p
      case Native(i) => r == InNative(i)
      case Tagged(k, a) => k < 3 && r.InFrame? && r.k == k && At(k).Held(r.addr, a, w)
    }

    /** The pointer's page is in the translation buffer of its store. */
    ghost predicate Pinned(p: Ptr)
      reads s0`pages, s1`pages, s2`pages
    {
      p.Tagged? ==> PageOf(p.a, At(p.k).bits) in At(p.k).pages
    }

    /** The pointer's page is in the page cache of its store. */
    ghost predicate Resident(p: Ptr)
      reads s0`cache, s1`cache, s2`cache
    {
      p.Tagged? ==> PageOf(p.a, At(p.k).bits) in At(p.k).cache.frameOf
    }

    /** The bytes up to the end of the pointer's page, as far as one chunk may go. */
    ghost function LeftIn(p: Ptr): nat {
      match p
      case Native(_) => NATIVE_CHUNK
      case Tagged(k, a) => Left(a, At(k).bits)
    }

    // ---------- Linking ----------

    /** Links a pointer; a native one is its own link. Any other linked pointer stays good if it is in
        another area, its page is pinned, or the page that is linked was resident already. */
    method Resolve(p: Ptr, isDirty: bool, ghost r: Raw, ghost q: Ptr, ghost w: bool) returns (res: Raw)
      requires Ok() && InRange(p, 0)
      modifies s0`cache, s0`pages, s0.tlb, s1`cache, s1`pages, s1.tlb, s2`cache, s2`pages, s2.tlb
      ensures Ok() && forall area :: Mem(area) == old(Mem(area))
      ensures Held(res, p, isDirty) && Pinned(p)
      ensures old(Held(r, q, w)) && (old(Pinned(q)) || old(Resident(p)) || q.Area() != p.Area()) ==> Held(r, q, w)
      ensures p.Tagged? ==> Links.LinkStep(old(At(p.k).State()), PageOf(p.a, At(p.k).bits), isDirty, At(p.k).State())
      ensures p.Tagged? ==> At(p.k).pages == Tlb.After(old(At(p.k).pages), PageOf(p.a, At(p.k).bits))
    {
      hide *;
      OkParts();
      MemCases();
      HeldCases(r, q, w);
      PinnedCases(p);
      PinnedCases(q);
      ResidentCases(p);
      RangeCases(p);
      Areas(p, q);
      match p
      case Native(i) =>
        res := InNative(i);
        HeldCases(res, p, isDirty);
      case Tagged(k, a) =>
        AtIs(k);
        RawAddressIs(r);
        ghost var r', b := RawAddress(r), q.Off();
        var addr;
        if k == 0 {
          addr := s0.PageFault(s0.storageBase + a, isDirty, a, r', b, w);
        } else if k == 1 {
          addr := s1.PageFault(s1.storageBase + a, isDirty, a, r', b, w);
        } else {
          addr := s2.PageFault(s2.storageBase + a, isDirty, a, r', b, w);
        }
        res := InFrame(k, addr);
        MemCases();
        HeldCases(res, p, isDirty);
        HeldCases(r, q, w);
        PinnedCases(p);
        PinnedCases(q);
        MakeOk();
    }

    function RawAddress(r: Raw): nat {
      if r.InNative? then r.i else r.addr
    }

    lemma RawAddressIs(r: Raw)
      ensures r.InFrame? ==> RawAddress(r) == r.addr
    {
    }

    lemma AtIs(k: nat)
      requires k < 3
      ensures At(k) == if k == 0 then s0 else if k == 1 then s1 else s2
    {
    }

    lemma Areas(p: Ptr, q: Ptr)
      ensures p.Area() == q.Area() <==> (p.Native? && q.Native?) || (p.Tagged? && q.Tagged? && p.k == q.k)
      ensures p.Tagged? ==> p.Off() == p.a
      ensures q.Tagged? ==> q.Off() == q.a
    {
    }

    lemma MemCases()
      ensures forall area :: Mem(area) == match area
        case NativeArea => native[..]
        case StoreArea(k) => if k == 0 then s0.Mem() else if k == 1 then s1.Mem() else s2.Mem()
    {
    }

    lemma RangeCases(p: Ptr)
      requires InRange(p, 0)
      ensures p.Tagged? ==> p.k < 3 && p.a < At(p.k).Size()
    {
    }

    lemma HeldCases(r: Raw, p: Ptr, w: bool)
      ensures Held(r, p, w) <==> match p
        case Native(i) => r == InNative(i)
        case Tagged(k, a) =>
          k < 3 && r.InFrame? && r.k == k &&
          (if k == 0 then s0.Held(r.addr, a, w) else if k == 1 then s1.Held(r.addr, a, w) else s2.Held(r.addr, a, w))
    {
    }

    lemma PinnedCases(p: Ptr)
      ensures Pinned(p) <==> p.Tagged? ==>
        (if p.k == 0 then PageOf(p.a, s0.bits) in s0.pages
         else if p.k == 1 then PageOf(p.a, s1.bits) in s1.pages
         else PageOf(p.a, s2.bits) in s2.pages)
    {
    }

    lemma ResidentCases(p: Ptr)
      ensures Resident(p) <==> p.Tagged? ==>
        (if p.k == 0 then PageOf(p.a, s0.bits) in s0.cache.frameOf
         else if p.k == 1 then PageOf(p.a, s1.bits) in s1.cache.frameOf
         else PageOf(p.a, s2.bits) in s2.cache.frameOf)
    {
    }

    lemma HeldKind(r: Raw, p: Ptr)
      requires Held(r, p, false)
      ensures r.InNative? <==> p.Native?
      ensures p.Tagged? ==> r.k == p.k < 3 && At(p.k).Held(r.addr, p.a, false)
      ensures Ok() ==> At(0).Valid() && At(1).Valid() && At(2).Valid()
    {
    }

    lemma HeldForRead(r: Raw, p: Ptr, w: bool)
      requires Held(r, p, w)
      ensures Held(r, p, false)
    {
    }

    lemma PinnedIs(p: Ptr)
      ensures Pinned(p) <==> (p.Tagged? ==> PageOf(p.a, At(p.k).bits) in At(p.k).pages)
    {
    }

    lemma OkParts()
      requires Ok()
      ensures s0.Valid() && s1.Valid() && s2.Valid()
      ensures s0 != s1 && s0 != s2 && s1 != s2 && s0.tlb != s1.tlb && s0.tlb != s2.tlb && s1.tlb != s2.tlb
      ensures (native as object) != s0.tlb && (native as object) != s1.tlb && (native as object) != s2.tlb
    {
    }

    lemma MakeOk()
      requires s0.Valid() && s1.Valid() && s2.Valid()
      requires s0 != s1 && s0 != s2 && s1 != s2 && s0.tlb != s1.tlb && s0.tlb != s2.tlb && s1.tlb != s2.tlb
      requires (native as object) != s0.tlb && (native as object) != s1.tlb && (native as object) != s2.tlb
      ensures Ok()
    {
    }

    // ---------- Reading and writing ----------

    /** `n` bytes from `p` on lie in one page. */
    ghost predicate InChunk(p: Ptr, n: nat) {
      InRange(p, n) && (p.Tagged? ==> n <= Left(p.a, At(p.k).bits))
    }

    method ReadRaw(r: Raw, n: nat, ghost p: Ptr) returns (bs: seq<Byte>)
      requires Ok() && Held(r, p, false) && InChunk(p, n)
      ensures p.Off() + n <= |Mem(p.Area())| && bs == Mem(p.Area())[p.Off()..p.Off() + n]
    {
      hide *;
      OkParts();
      MemCases();
      HeldCases(r, p, false);
      ChunkCases(p, n);
      match r
      case InNative(i) =>
        bs := native[i..i + n];
      case InFrame(k, addr) =>
        AtIs(k);
        if k == 0 {
          s0.HeldIs(addr, p.a, false);
          bs := s0.Read(addr, n, p.a);
        } else if k == 1 {
          s1.HeldIs(addr, p.a, false);
          bs := s1.Read(addr, n, p.a);
        } else {
          s2.HeldIs(addr, p.a, false);
          bs := s2.Read(addr, n, p.a);
        }
    }

    lemma ChunkCases(p: Ptr, n: nat)
      requires InChunk(p, n)
      ensures match p
        case Native(i) => i + n <= native.Length && p.Area() == NativeArea && p.Off() == i
        case Tagged(k, a) =>
          && k < 3 && p.Area() == StoreArea(k) && p.Off() == a
          && (if k == 0 then s0.InPage(a, n) else if k == 1 then s1.InPage(a, n) else s2.InPage(a, n))
    {
    }

    lemma AllHeldCases()
      ensures forall r: Raw, p: Ptr, w: bool :: Held(r, p, w) <==> match p
        case Native(i) => r == InNative(i)
        case Tagged(k, a) =>
          k < 3 && r.InFrame? && r.k == k &&
          (if k == 0 then s0.Held(r.addr, a, w) else if k == 1 then s1.Held(r.addr, a, w) else s2.Held(r.addr, a, w))
    {
    }

    lemma AllResidentCases()
      ensures forall p: Ptr :: Resident(p) <==> p.Tagged? ==>
        (if p.k == 0 then PageOf(p.a, s0.bits) in s0.cache.frameOf
         else if p.k == 1 then PageOf(p.a, s1.bits) in s1.cache.frameOf
         else PageOf(p.a, s2.bits) in s2.cache.frameOf)
    {
    }

    method WriteRaw(r: Raw, bs: seq<Byte>, ghost p: Ptr)
      requires Ok() && Held(r, p, true) && InChunk(p, |bs|)
      modifies native, s0`cache, s1`cache, s2`cache
      ensures Ok()
      ensures p.Off() + |bs| <= |old(Mem(p.Area()))|
      ensures Mem(p.Area()) == Splice(old(Mem(p.Area())), p.Off(), bs)
      ensures forall area :: Known(area) && area != p.Area() ==> Mem(area) == old(Mem(area))
      ensures forall r: Raw, q: Ptr, w: bool :: old(Held(r, q, w)) == Held(r, q, w)
      ensures forall q: Ptr :: old(Resident(q)) == Resident(q)
    {
      hide *;
      OkParts();
      MemCases();
      KnownCases();
      AllHeldCases();
      AllResidentCases();
      ChunkCases(p, |bs|);
      match r {
      case InNative(i) =>
        forall j | 0 <= j < |bs| {
          native[i + j] := bs[j];
        }
        assert native[..] == Splice(old(native[..]), i, bs) by { NativeSplice(old(native[..]), native[..], i, bs); }
      case InFrame(k, addr) =>
        AtIs(k);
        if k == 0 {
          s0.HeldIs(addr, p.a, true);
          s0.Write(addr, bs, p.a);
        } else if k == 1 {
          s1.HeldIs(addr, p.a, true);
          s1.Write(addr, bs, p.a);
        } else {
          s2.HeldIs(addr, p.a, true);
          s2.Write(addr, bs, p.a);
        }
      }
      MakeOk();
      MemCases();
      AllHeldCases();
      AllResidentCases();
    }

    ghost predicate Known(area: Area) {
      area.StoreArea? ==> area.k < 3
    }

    lemma KnownCases()
      ensures forall area :: Known(area) <==> area.NativeArea? || area.k < 3
    {
    }

    lemma NativeSplice(m: seq<Byte>, m': seq<Byte>, a: nat, bs: seq<Byte>)
      requires |m'| == |m| && a + |bs| <= |m|
      requires forall i :: 0 <= i < |m| ==> m'[i] == if a <= i < a + |bs| then bs[i - a] else m[i]
      ensures m' == Splice(m, a, bs)
    {
    }
  }
}
