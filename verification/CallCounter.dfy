/** The two counting passes as they run: the dynamic counter rewrites the module in place, the static
    counter walks it and fills a table. */
module CallCounter {
  import opened CallModel
  import opened CallSim

  // ---------- Counting in code ----------

  function Occurs(code: Code, x: Inst): nat {
    if code == [] then 0
    else Occurs(code[..|code| - 1], x) + (if code[|code| - 1] == x then 1 else 0)
  }

  function InBody(body: Body, x: Inst): nat {
    if body == [] then 0 else InBody(body[..|body| - 1], x) + Occurs(body[|body| - 1], x)
  }

  /** How often an instruction occurs in these functions of the module. */
  function InModule(p: Program, order: seq<FuncId>, x: Inst): nat {
    if order == [] then 0
    else
      var g := order[|order| - 1];
      InModule(p, order[..|order| - 1], x) + (if g in p.bodies then InBody(p.bodies[g], x) else 0)
  }

  /** Instruction `i` of block `b` of function `k` is `x`. */
  ghost predicate IsAt(p: Program, order: seq<FuncId>, x: Inst, k: nat, b: nat, i: nat) {
    && k < |order| && order[k] in p.bodies
    && b < |p.bodies[order[k]]| && i < |p.bodies[order[k]][b]| && p.bodies[order[k]][b][i] == x
  }

  type Place = (nat, nat, nat)

  predicate Before(at: Place, k: nat, b: nat, i: nat) {
    at.0 < k || (at.0 == k && (at.1 < b || (at.1 == b && at.2 < i)))
  }

  ghost predicate Collects(p: Program, order: seq<FuncId>, x: Inst, places: set<Place>, k: nat, b: nat, i: nat) {
    forall at: Place :: at in places <==> IsAt(p, order, x, at.0, at.1, at.2) && Before(at, k, b, i)
  }

  /** The places before `i` in a block, from those before the block. */
  lemma {:induction false} PlacesInCode(p: Program, order: seq<FuncId>, x: Inst, places: set<Place>, k: nat, b: nat, i: nat)
    returns (all: set<Place>)
    requires k < |order| && order[k] in p.bodies && b < |p.bodies[order[k]]| && i <= |p.bodies[order[k]][b]|
    requires Collects(p, order, x, places, k, b, 0)
    ensures Collects(p, order, x, all, k, b, i)
    ensures |all| == |places| + Occurs(p.bodies[order[k]][b][..i], x)
    decreases i
  {
    all := places;
    if i > 0 {
      var code := p.bodies[order[k]][b];
      all := PlacesInCode(p, order, x, places, k, b, i - 1);
      assert code[..i][..i - 1] == code[..i - 1];
      if code[i - 1] == x {
        all := all + {(k, b, i - 1)};
      }
    }
  }

  lemma {:induction false} PlacesInBody(p: Program, order: seq<FuncId>, x: Inst, places: set<Place>, k: nat, b: nat)
    returns (all: set<Place>)
    requires k < |order| && order[k] in p.bodies && b <= |p.bodies[order[k]]|
    requires Collects(p, order, x, places, k, 0, 0)
    ensures Collects(p, order, x, all, k, b, 0)
    ensures |all| == |places| + InBody(p.bodies[order[k]][..b], x)
    decreases b
  {
    all := places;
    if b > 0 {
      var body := p.bodies[order[k]];
      all := PlacesInBody(p, order, x, places, k, b - 1);
      assert body[..b][..b - 1] == body[..b - 1];
      assert body[b - 1][..|body[b - 1]|] == body[b - 1];
      all := PlacesInCode(p, order, x, all, k, b - 1, |body[b - 1]|);
    }
  }

  lemma {:induction false} PlacesInModule(p: Program, order: seq<FuncId>, x: Inst, k: nat) returns (all: set<Place>)
    requires k <= |order|
    ensures Collects(p, order, x, all, k, 0, 0)
    ensures |all| == InModule(p, order[..k], x)
    decreases k
  {
    all := {};
    if k > 0 {
      all := PlacesInModule(p, order, x, k - 1);
      assert order[..k][..k - 1] == order[..k - 1];
      if order[k - 1] in p.bodies {
        var body := p.bodies[order[k - 1]];
        assert body[..|body|] == body;
        all := PlacesInBody(p, order, x, all, k - 1, |body|);
      }
    }
  }

  /** The places of an instruction in a module are as many as counted. */
  lemma OccursAtPlaces(p: Program, x: Inst) returns (places: set<Place>)
    ensures |places| == InModule(p, p.order, x)
    ensures forall k: nat, b: nat, i: nat :: (k, b, i) in places <==>
      && k < |p.order| && p.order[k] in p.bodies
      && b < |p.bodies[p.order[k]]| && i < |p.bodies[p.order[k]][b]| && p.bodies[p.order[k]][b][i] == x
  {
    places := PlacesInModule(p, p.order, x, |p.order|);
    assert p.order[..|p.order|] == p.order;
    forall k: nat, b: nat, i: nat
      ensures (k, b, i) in places <==>
        && k < |p.order| && p.order[k] in p.bodies
        && b < |p.bodies[p.order[k]]| && i < |p.bodies[p.order[k]][b]| && p.bodies[p.order[k]][b][i] == x
    {
      var at: Place := (k, b, i);
      assert at in places <==> IsAt(p, p.order, x, at.0, at.1, at.2) && Before(at, |p.order|, 0, 0);
    }
  }

  lemma {:induction false} OccursAppend(c: Code, d: Code, x: Inst)
    ensures Occurs(c + d, x) == Occurs(c, x) + Occurs(d, x)
    decreases |d|
  {
    if d == [] {
      assert c + d == c;
    } else {
      assert (c + d)[..|c + d| - 1] == c + d[..|d| - 1];
      OccursAppend(c, d[..|d| - 1], x);
    }
  }

  /** Emitted code has one increment of a declared function's entry for each of its call sites, and
      none for a defined function. */
  lemma {:induction false} EmittedIncrs(s: Setup, code: Code, f: FuncId)
    requires Ok(s) && f in s.p.order
    requires forall k :: 0 <= k < |code| ==> !code[k].Incr?
    ensures f in s.IdMap()
    ensures Occurs(s.Emitted(code), Incr(s.IdMap()[f])) == if f in s.p.bodies then 0 else Occurs(code, Call(Direct(f)))
    decreases |code|
  {
    IdFacts(s);
    if code != [] {
      var n := |code| - 1;
      EmittedIncrs(s, code[..n], f);
      OccursAppend(s.Emitted(code[..n]), s.EmitOne(code[n]), Incr(s.IdMap()[f]));
      EmitOneIncrs(s, code[n], f);
    }
  }

  lemma EmitOneIncrs(s: Setup, i: Inst, f: FuncId)
    requires Ok(s) && f in s.p.order && !i.Incr? && f in s.IdMap()
    ensures Occurs(s.EmitOne(i), Incr(s.IdMap()[f])) == if f !in s.p.bodies && i == Call(Direct(f)) then 1 else 0
  {
    IdFacts(s);
    EmitOneCases(s, i);
    var id := Counted(s.IdMap(), s.p.bodies.Keys, s.incrCC, i);
    if id.Some? {
      var g := i.callee.f;
      assert id.value == s.IdMap()[f] ==> s.p.order[id.value] == g == f;
      OccursInPair(Incr(id.value), i, Incr(s.IdMap()[f]));
    } else {
      OccursInOne(i, Incr(s.IdMap()[f]));
      assert i == Call(Direct(f)) ==> f in s.p.bodies;
    }
  }

  lemma OccursInOne(i: Inst, x: Inst)
    ensures Occurs([i], x) == if i == x then 1 else 0
  {
    assert [i][..0] == [];
  }

  lemma OccursInPair(i: Inst, j: Inst, x: Inst)
    ensures Occurs([i, j], x) == (if i == x then 1 else 0) + (if j == x then 1 else 0)
  {
    assert [i, j][..1] == [i];
    OccursInOne(i, x);
  }

  lemma PrefixIncrs(s: Setup, g: FuncId, b: nat, f: FuncId)
    requires Ok(s) && g in s.p.bodies && f in s.p.order && f in s.IdMap() && g in s.IdMap()
    ensures Occurs(Prefix(s.IdMap(), g, b), Incr(s.IdMap()[f])) == if g == f && b == 0 then 1 else 0
  {
    IdFacts(s);
    if b == 0 {
      assert [Incr(s.IdMap()[g])][..0] == [];
    }
  }

  lemma BlockIncrs(s: Setup, g: FuncId, f: FuncId, b: nat)
    requires Ok(s) && g in s.p.bodies && f in s.p.order && b < |s.p.bodies[g]|
    ensures f in s.IdMap() && g in s.IdMap()
    ensures Occurs(Prefix(s.IdMap(), g, b) + s.Emitted(s.p.bodies[g][b]), Incr(s.IdMap()[f])) ==
      (if f in s.p.bodies then 0 else Occurs(s.p.bodies[g][b], Call(Direct(f)))) + (if g == f && b == 0 then 1 else 0)
  {
    IdFacts(s);
    var code := s.p.bodies[g][b];
    EmittedIncrs(s, code, f);
    PrefixIncrs(s, g, b, f);
    OccursAppend(Prefix(s.IdMap(), g, b), s.Emitted(code), Incr(s.IdMap()[f]));
  }

  lemma InBodyNext(body: Body, n: nat, x: Inst)
    requires n < |body|
    ensures InBody(body[..n + 1], x) == InBody(body[..n], x) + Occurs(body[n], x)
  {
    hide Occurs;
    assert body[..n + 1][..n] == body[..n];
  }

  lemma InNoBody(body: Body, x: Inst)
    ensures InBody(body[..0], x) == 0
  {
  }

  lemma NewSize(s: Setup, g: FuncId)
    requires WellFormed(s.p) && g in s.p.bodies
    ensures g in New(s).bodies && |New(s).bodies[g]| == |s.p.bodies[g]|
  {
    IdFacts(s);
  }

  /** The same over the blocks of one function; a defined function also has the one at its entry. */
  lemma {:induction false} BodyIncrs(s: Setup, g: FuncId, f: FuncId, n: nat)
    requires Ok(s) && g in s.p.bodies && f in s.p.order && n <= |s.p.bodies[g]|
    ensures f in s.IdMap() && g in New(s).bodies && |New(s).bodies[g]| == |s.p.bodies[g]|
    ensures InBody(New(s).bodies[g][..n], Incr(s.IdMap()[f])) ==
      (if f in s.p.bodies then 0 else InBody(s.p.bodies[g][..n], Call(Direct(f)))) + (if g == f && n > 0 then 1 else 0)
    decreases n
  {
    hide *;
    OkParts(s);
    IdFacts(s);
    NewSize(s, g);
    if n > 0 {
      BodyIncrs(s, g, f, n - 1);
      NewCode(s, g, n - 1);
      BlockIncrs(s, g, f, n - 1);
      InBodyNext(New(s).bodies[g], n - 1, Incr(s.IdMap()[f]));
      InBodyNext(s.p.bodies[g], n - 1, Call(Direct(f)));
    } else {
      InNoBody(New(s).bodies[g], Incr(s.IdMap()[f]));
      InNoBody(s.p.bodies[g], Call(Direct(f)));
    }
  }

  lemma InModuleNext(p: Program, order: seq<FuncId>, k: nat, x: Inst)
    requires k < |order|
    ensures InModule(p, order[..k + 1], x) ==
      InModule(p, order[..k], x) + (if order[k] in p.bodies then InBody(p.bodies[order[k]], x) else 0)
    ensures forall f :: f in order[..k + 1] <==> f in order[..k] || f == order[k]
  {
    hide InBody;
    assert order[..k + 1][..k] == order[..k];
  }

  lemma InNoFunction(p: Program, order: seq<FuncId>, x: Inst)
    ensures InModule(p, order[..0], x) == 0
  {
  }

  lemma NotBefore(p: Program, k: nat)
    requires WellFormed(p) && k < |p.order|
    ensures p.order[k] !in p.order[..k] && (p.order[k] in p.bodies ==> |p.bodies[p.order[k]]| > 0)
  {
    assert p.order[k] in p.bodies ==> p.bodies[p.order[k]] != [];
  }

  lemma {:induction false} OrderIncrs(s: Setup, f: FuncId, k: nat)
    requires Ok(s) && f in s.p.order && k <= |s.p.order|
    ensures WellFormed(s.p) && f in s.IdMap()
    ensures InModule(New(s), s.p.order[..k], Incr(s.IdMap()[f])) ==
      if f in s.p.bodies then (if f in s.p.order[..k] then 1 else 0) else InModule(s.p, s.p.order[..k], Call(Direct(f)))
    decreases k
  {
    hide *;
    OkParts(s);
    IdFacts(s);
    NewProgram(s);
    if k > 0 {
      OrderIncrs(s, f, k - 1);
      var g := s.p.order[k - 1];
      InModuleNext(s.p, s.p.order, k - 1, Call(Direct(f)));
      InModuleNext(New(s), s.p.order, k - 1, Incr(s.IdMap()[f]));
      NotBefore(s.p, k - 1);
      if g in s.p.bodies {
        BodyIncrs(s, g, f, |s.p.bodies[g]|);
        assert New(s).bodies[g][..|s.p.bodies[g]|] == New(s).bodies[g];
        assert s.p.bodies[g][..|s.p.bodies[g]|] == s.p.bodies[g];
      }
    } else {
      InNoFunction(New(s), s.p.order, Incr(s.IdMap()[f]));
      InNoFunction(s.p, s.p.order, Call(Direct(f)));
    }
  }

  /** The static count of a declared function is the number of increments of its entry that the dynamic
      counter inserts; a defined function gets exactly one. */
  lemma StaticMatchesDynamic(s: Setup, f: FuncId)
    requires Ok(s) && f in s.p.order
    ensures WellFormed(s.p) && f in s.IdMap()
    ensures InModule(New(s), s.p.order, Incr(s.IdMap()[f])) ==
      if f in s.p.bodies then 1 else InModule(s.p, s.p.order, Call(Direct(f)))
  {
    OrderIncrs(s, f, |s.p.order|);
    assert s.p.order[..|s.p.order|] == s.p.order;
  }

  // ---------- The static counter ----------

  type Counts = map<FuncId, nat>

  function Count(res: Counts, f: FuncId): nat {
    if f in res then res[f] else 0
  }

  /** Walks every instruction of the module and counts direct call sites. */
  method StaticCount(p: Program) returns (res: Counts)
    ensures forall f :: (if f in res then res[f] else 0) == InModule(p, p.order, Call(Direct(f)))
    ensures forall f :: f in res ==> res[f] > 0
  {
    res := map[];
    for k := 0 to |p.order|
      invariant forall f :: Count(res, f) == InModule(p, p.order[..k], Call(Direct(f)))
      invariant forall f :: f in res ==> res[f] > 0
    {
      var g := p.order[k];
      assert p.order[..k + 1][..k] == p.order[..k];
      if g in p.bodies {
        var body := p.bodies[g];
        for b := 0 to |body|
          invariant forall f ::
            Count(res, f) == InModule(p, p.order[..k], Call(Direct(f))) + InBody(body[..b], Call(Direct(f)))
          invariant forall f :: f in res ==> res[f] > 0
        {
          var code := body[b];
          assert body[..b + 1][..b] == body[..b];
          for i := 0 to |code|
            invariant forall f ::
              Count(res, f) == InModule(p, p.order[..k], Call(Direct(f)))
                + InBody(body[..b], Call(Direct(f))) + Occurs(code[..i], Call(Direct(f)))
            invariant forall f :: f in res ==> res[f] > 0
          {
            assert code[..i + 1][..i] == code[..i];
            if code[i].Call? && code[i].callee.Direct? {
              var f := code[i].callee.f;
              if f !in res {
                res := res[f := 0];
              }
              res := res[f := res[f] + 1];
            }
          }
          assert code[..|code|] == code;
        }
        assert body[..|body|] == body;
      }
    }
    assert p.order[..|p.order|] == p.order;
  }

  // ---------- The dynamic counter ----------

  /** The bodies with one block replaced. */
  function With(bodies: map<FuncId, Body>, f: FuncId, b: nat, code: Code): map<FuncId, Body>
    requires f in bodies && b < |bodies[f]|
  {
    bodies[f := bodies[f][b := code]]
  }

  lemma WithFacts(bodies: map<FuncId, Body>, f: FuncId, b: nat, code: Code, code': Code)
    requires f in bodies && b < |bodies[f]|
    ensures With(bodies, f, b, bodies[f][b]) == bodies
    ensures With(With(bodies, f, b, code), f, b, code') == With(bodies, f, b, code')
    ensures With(bodies, f, b, code)[f][b] == code
  {
    assert bodies[f][b := bodies[f][b]] == bodies[f];
    assert bodies[f][b := code][b := code'] == bodies[f][b := code'];
  }

  datatype FunctionInfo = FunctionInfo(name: string, count: nat)

  class Module {
    const order: seq<FuncId>
    const names: map<FuncId, string>
    var bodies: map<FuncId, Body>
    /** What the runtime library links against. */
    var numFunctions: nat
    var functionInfo: seq<FunctionInfo>

    constructor (p: Program, names: map<FuncId, string>)
      ensures Value() == p && this.names == names
    {
      order, bodies, this.names := p.order, p.bodies, names;
      numFunctions, functionInfo := 0, [];
    }

    function Value(): Program
      reads this
    {
      Program(order, bodies)
    }

    /** Inserts an instruction into a block. */
    method Insert(f: FuncId, b: nat, pos: nat, i: Inst)
      requires f in bodies && b < |bodies[f]| && pos <= |bodies[f][b]|
      modifies this`bodies
      ensures var code := old(bodies)[f][b];
        bodies == With(old(bodies), f, b, code[..pos] + [i] + code[pos..])
    {
      var code := bodies[f][b];
      bodies := bodies[f := bodies[f][b := code[..pos] + [i] + code[pos..]]];
    }
  }

  class DynamicCallCounter {
    var ids: map<FuncId, nat>
    var internalFuncs: set<FuncId>

    static method ComputeFunctionIDs(functions: seq<FuncId>) returns (idMap: map<FuncId, nat>)
      ensures idMap == Ids(functions)
    {
      idMap := map[];
      var nextId := 0;
      for k := 0 to |functions|
        invariant nextId == k && idMap == Ids(functions[..k])
      {
        assert functions[..k + 1][..k] == functions[..k];
        idMap := idMap[functions[k] := nextId];
        nextId := nextId + 1;
      }
      assert functions[..|functions|] == functions;
    }

    static method ComputeInternalFuncs(m: Module, functions: seq<FuncId>) returns (internal: set<FuncId>)
      requires forall f :: f in m.bodies ==> f in functions
      ensures internal == m.bodies.Keys
    {
      internal := {};
      for k := 0 to |functions|
        invariant forall f :: f in internal <==> f in m.bodies && f in functions[..k]
      {
        if functions[k] in m.bodies {
          internal := internal + {functions[k]};
        }
      }
      assert functions[..|functions|] == functions;
    }

    /** The table of the runtime: one entry for each function, in module order, with a zero count. */
    static method CreateGlobalFunctionTable(m: Module, functions: seq<FuncId>)
      requires forall f :: f in functions ==> f in m.names
      modifies m`functionInfo
      ensures |m.functionInfo| == |functions|
      ensures forall i :: 0 <= i < |functions| ==> m.functionInfo[i] == FunctionInfo(m.names[functions[i]], 0)
    {
      m.functionInfo := [];
      for k := 0 to |functions|
        invariant |m.functionInfo| == k
        invariant forall i :: 0 <= i < k ==> m.functionInfo[i] == FunctionInfo(m.names[functions[i]], 0)
      {
        m.functionInfo := m.functionInfo + [FunctionInfo(m.names[functions[k]], 0)];
      }
    }

    method InstallIncrCC(m: Module, f: FuncId)
      requires f in m.bodies && m.bodies[f] != [] && f in ids
      modifies m`bodies
      ensures m.bodies == With(old(m.bodies), f, 0, [Incr(ids[f])] + old(m.bodies)[f][0])
    {
      m.Insert(f, 0, 0, Incr(ids[f]));
      assert [] + [Incr(ids[f])] + old(m.bodies)[f][0] == [Incr(ids[f])] + old(m.bodies)[f][0];
    }

    /** Inserts an increment before a call site that is to be counted. */
    method InstallCCInstruction(m: Module, f: FuncId, b: nat, pos: nat, incrCC: FuncId) returns (inserted: bool)
      requires f in m.bodies && b < |m.bodies[f]| && pos < |m.bodies[f][b]|
      modifies m`bodies
      ensures var code := old(m.bodies)[f][b];
        m.bodies == With(old(m.bodies), f, b, code[..pos] + Emit(ids, internalFuncs, incrCC, code[pos]) + code[pos + 1..])
      ensures inserted <==> |Emit(ids, internalFuncs, incrCC, old(m.bodies)[f][b][pos])| == 2
    {
      inserted := false;
      var code := m.bodies[f][b];
      assert code[..pos] + [code[pos]] + code[pos + 1..] == code;
      WithFacts(m.bodies, f, b, code, code);
      var called := CalledFunction(code[pos], incrCC);
      if called.None? {
        return;
      }
      if called.value in internalFuncs {
        return;
      }
      if called.value !in ids {
        return;
      }
      m.Insert(f, b, pos, Incr(ids[called.value]));
      inserted := true;
      assert code[..pos] + [Incr(ids[called.value])] + code[pos..]
          == code[..pos] + [Incr(ids[called.value]), code[pos]] + code[pos + 1..];
    }

    /** Walks one block. The instruction iterator stays on the call site when something is inserted
        before it. */
    method InstrumentBlock(m: Module, f: FuncId, b: nat, incrCC: FuncId)
      requires f in m.bodies && b < |m.bodies[f]|
      modifies m`bodies
      ensures m.bodies == With(old(m.bodies), f, b, EmitCode(ids, internalFuncs, incrCC, old(m.bodies)[f][b]))
    {
      hide Emit, With;
      ghost var code, bodies := m.bodies[f][b], m.bodies;
      var pos := 0;
      ghost var j := 0;
      WithFacts(bodies, f, b, code, code);
      EmitStart(ids, internalFuncs, incrCC, code);
      while pos < |m.bodies[f][b]|
        invariant j <= |code| && pos == |EmitCode(ids, internalFuncs, incrCC, code[..j])|
        invariant f in m.bodies && b < |m.bodies[f]|
        invariant m.bodies[f][b] == EmitCode(ids, internalFuncs, incrCC, code[..j]) + code[j..]
        invariant m.bodies == With(bodies, f, b, m.bodies[f][b])
        decreases |code| - j
      {
        ghost var now := m.bodies[f][b];
        EmitNext(ids, internalFuncs, incrCC, code, j, now);
        var inserted := InstallCCInstruction(m, f, b, pos, incrCC);
        ghost var next := EmitCode(ids, internalFuncs, incrCC, code[..j + 1]) + code[j + 1..];
        WithFacts(bodies, f, b, now, next);
        WithShape(bodies, f, b, next);
        if inserted {
          pos := pos + 1;
        }
        pos := pos + 1;
        j := j + 1;
      }
      assert |code[j..]| == 0 && j == |code|;
      assert code[..j] == code && code[j..] == [];
      assert m.bodies[f][b] == EmitCode(ids, internalFuncs, incrCC, code) + [] == EmitCode(ids, internalFuncs, incrCC, code);
    }

    method InstrumentFunction(m: Module, f: FuncId, incrCC: FuncId)
      requires f in m.bodies && m.bodies[f] != [] && f in ids
      modifies m`bodies
      ensures m.bodies == old(m.bodies)[f := EmitBody(ids, internalFuncs, incrCC, f, old(m.bodies)[f])]
    {
      hide EmitCode;
      ghost var bodies, body := m.bodies, m.bodies[f];
      InstallIncrCC(m, f);
      for b := 0 to |m.bodies[f]|
        invariant f in m.bodies && |m.bodies[f]| == |body| && m.bodies == bodies[f := m.bodies[f]]
        invariant forall k :: 0 <= k < b ==>
          m.bodies[f][k] == EmitCode(ids, internalFuncs, incrCC, Prefix(ids, f, k) + body[k])
        invariant forall k :: b <= k < |body| ==> m.bodies[f][k] == Prefix(ids, f, k) + body[k]
      {
        InstrumentBlock(m, f, b, incrCC);
      }
      assert m.bodies[f] == EmitBody(ids, internalFuncs, incrCC, f, body);
    }

    method RunOnModule(m: Module, incrCC: FuncId)
      requires WellFormed(m.Value()) && forall f :: f in m.order ==> f in m.names
      modifies this, m
      ensures forall f :: f in old(m.bodies) ==> f in Ids(m.order)
      ensures m.Value() == Instrumented(old(m.Value()), incrCC)
      ensures ids == Ids(m.order)
      ensures m.numFunctions == |m.order| == |m.functionInfo|
      ensures forall f :: f in m.order ==>
        f in ids && ids[f] < |m.functionInfo| && m.functionInfo[ids[f]] == FunctionInfo(m.names[f], 0)
    {
      ghost var p := m.Value();
      IdFacts(Setup(p, incrCC));
      OrderFacts(p);
      hide Ids, EmitBody, WellFormed;
      var toCount: seq<FuncId> := [];
      for k := 0 to |m.order|
        invariant toCount == m.order[..k]
      {
        toCount := toCount + [m.order[k]];
      }
      assert toCount == m.order;
      ids := ComputeFunctionIDs(toCount);
      internalFuncs := ComputeInternalFuncs(m, toCount);
      m.numFunctions := |toCount|;
      CreateGlobalFunctionTable(m, toCount);
      InstrumentAll(m, toCount, incrCC);
    }

    method InstrumentAll(m: Module, toCount: seq<FuncId>, incrCC: FuncId)
      requires forall i, j :: 0 <= i < j < |toCount| ==> toCount[i] != toCount[j]
      requires forall f :: f in m.bodies ==> f in toCount && m.bodies[f] != [] && f in ids
      modifies m`bodies
      ensures m.bodies == map f | f in old(m.bodies) :: EmitBody(ids, internalFuncs, incrCC, f, old(m.bodies)[f])
    {
      hide EmitBody;
      ghost var bodies := m.bodies;
      for k := 0 to |toCount|
        invariant m.bodies.Keys == bodies.Keys
        invariant forall f :: f in bodies && f in toCount[..k] ==>
          m.bodies[f] == EmitBody(ids, internalFuncs, incrCC, f, bodies[f])
        invariant forall f :: f in bodies && f !in toCount[..k] ==> m.bodies[f] == bodies[f]
      {
        var f := toCount[k];
        assert forall i :: 0 <= i < k ==> toCount[i] != f;
        if f in m.bodies {
          InstrumentFunction(m, f, incrCC);
        }
      }
      assert toCount[..|toCount|] == toCount;
    }
  }

  lemma OrderFacts(p: Program)
    requires WellFormed(p)
    ensures forall i, j :: 0 <= i < j < |p.order| ==> p.order[i] != p.order[j]
    ensures forall f :: f in p.bodies ==> f in p.order && p.bodies[f] != []
  {
  }

  lemma WithShape(bodies: map<FuncId, Body>, f: FuncId, b: nat, code: Code)
    requires f in bodies && b < |bodies[f]|
    ensures f in With(bodies, f, b, code) && b < |With(bodies, f, b, code)[f]|
    ensures With(bodies, f, b, code)[f][b] == code
  {
  }

  lemma EmitStart(ids: map<FuncId, nat>, internal: set<FuncId>, incrCC: FuncId, code: Code)
    ensures EmitCode(ids, internal, incrCC, code[..0]) == [] && [] + code[0..] == code
  {
    assert code[..0] == [];
  }

  /** One round of the walk over a block. */
  lemma EmitNext(ids: map<FuncId, nat>, internal: set<FuncId>, incrCC: FuncId, code: Code, j: nat, now: Code)
    requires j <= |code| && now == EmitCode(ids, internal, incrCC, code[..j]) + code[j..]
    requires |EmitCode(ids, internal, incrCC, code[..j])| < |now|
    ensures j < |code|
    ensures var pos := |EmitCode(ids, internal, incrCC, code[..j])|;
      && now[..pos] + Emit(ids, internal, incrCC, now[pos]) + now[pos + 1..]
           == EmitCode(ids, internal, incrCC, code[..j + 1]) + code[j + 1..]
      && |EmitCode(ids, internal, incrCC, code[..j + 1])| == pos + |Emit(ids, internal, incrCC, now[pos])|
      && 1 <= |Emit(ids, internal, incrCC, now[pos])| <= 2
  {
    var done := EmitCode(ids, internal, incrCC, code[..j]);
    assert now[..|done|] == done && now[|done|] == code[j] && now[|done| + 1..] == code[j + 1..];
    assert code[..j + 1][..j] == code[..j];
  }
}
