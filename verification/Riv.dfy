/** The reachable-integer-values analysis: a worklist over the dominator tree. */
module Riv {
  import opened Ssa
  import opened SsaForm

  /** A node of the dominator tree. */
  datatype DomTree = Node(block: Label, children: seq<DomTree>)

  function Labels(t: DomTree): set<Label>
    decreases t, 1
  {
    {t.block} + ForestLabels(t.children)
  }

  function ForestLabels(ts: seq<DomTree>): set<Label>
    decreases ts, 0
  {
    if ts == [] then {} else Labels(ts[0]) + ForestLabels(ts[1..])
  }

  predicate Distinct(t: DomTree)
    decreases t, 1
  {
    t.block !in ForestLabels(t.children) && DistinctForest(t.children)
  }

  predicate DistinctForest(ts: seq<DomTree>)
    decreases ts, 0
  {
    ts == [] || (Distinct(ts[0]) && DistinctForest(ts[1..]) && Labels(ts[0]) !! ForestLabels(ts[1..]))
  }

  function Size(t: DomTree): nat
    decreases t, 1
  {
    1 + ForestSize(t.children)
  }

  function ForestSize(ts: seq<DomTree>): nat
    decreases ts, 0
  {
    if ts == [] then 0 else Size(ts[0]) + ForestSize(ts[1..])
  }

  /** `a` is a strict ancestor of `c` in the tree. */
  predicate Ancestor(t: DomTree, a: Label, c: Label)
    decreases t, 1
  {
    (a == t.block && c in ForestLabels(t.children)) || AncestorInForest(t.children, a, c)
  }

  predicate AncestorInForest(ts: seq<DomTree>, a: Label, c: Label)
    decreases ts, 0
  {
    ts != [] && (Ancestor(ts[0], a, c) || AncestorInForest(ts[1..], a, c))
  }

  /** The dominator tree of a function: its strict ancestors are the strict dominators. */
  ghost predicate IsDominatorTree(f: Func, t: DomTree) {
    && t.block == f.entry && Distinct(t) && Labels(t) <= f.blocks.Keys
    && forall a, c :: a in f.blocks && c in Labels(t) ==> (Ancestor(t, a, c) <==> StrictlyDominates(f, a, c))
  }

  /** The integer values a block defines. */
  function IntDefs(b: Block): set<Reg> {
    (set i | 0 <= i < |b.phis| && b.phis[i].ty.IntTy? :: b.phis[i].dst)
    + (set i | 0 <= i < |b.body| && b.body[i].dst.Some? && b.body[i].ty.IntTy? :: b.body[i].dst.value)
  }

  /** PHIs and instructions of integer type. */
  lemma InIntDefs(b: Block, x: Reg)
    ensures x in IntDefs(b) <==>
      || (exists i :: 0 <= i < |b.phis| && b.phis[i].dst == x && b.phis[i].ty.IntTy?)
      || (exists i :: 0 <= i < |b.body| && b.body[i].dst.Some? && b.body[i].dst.value == x && b.body[i].ty.IntTy?)
  {
  }

  type DefMap = map<Label, set<Reg>>

  function Get(m: DefMap, c: Label): set<Reg> {
    if c in m then m[c] else {}
  }

  lemma GetIs(m: DefMap, c: Label)
    ensures Get(m, c) == if c in m then m[c] else {}
  {
  }

  // ---------- The result of the analysis as a function of the tree ----------

  /** Each node inherits the values of its parent, and adds its own for its children. */
  function Visible(defs: DefMap, t: DomTree, inherited: set<Reg>): DefMap
    decreases t, 1
  {
    map[t.block := inherited] + VisibleForest(defs, t.children, inherited + Get(defs, t.block))
  }

  function VisibleForest(defs: DefMap, ts: seq<DomTree>, inherited: set<Reg>): DefMap
    decreases ts, 0
  {
    if ts == [] then map[]
    else VisibleForest(defs, ts[1..], inherited) + Visible(defs, ts[0], inherited)
  }

  lemma VisibleKeys(defs: DefMap, t: DomTree, inherited: set<Reg>)
    ensures Visible(defs, t, inherited).Keys == Labels(t)
    decreases t, 1
  {
    VisibleForestKeys(defs, t.children, inherited + Get(defs, t.block));
  }

  lemma VisibleForestKeys(defs: DefMap, ts: seq<DomTree>, inherited: set<Reg>)
    ensures VisibleForest(defs, ts, inherited).Keys == ForestLabels(ts)
    decreases ts, 0
  {
    if ts != [] {
      VisibleForestKeys(defs, ts[1..], inherited);
      VisibleKeys(defs, ts[0], inherited);
    }
  }

  /** A block sees what the root inherits and what its strict ancestors define, nothing else. */
  lemma {:induction false} VisibleIsAncestors(defs: DefMap, t: DomTree, inherited: set<Reg>, c: Label, x: Reg)
    requires Distinct(t) && c in Labels(t)
    ensures c in Visible(defs, t, inherited)
    ensures x in Visible(defs, t, inherited)[c] <==>
      x in inherited || exists a :: Ancestor(t, a, c) && x in Get(defs, a)
    decreases t, 1
  {
    VisibleKeys(defs, t, inherited);
    var below := inherited + Get(defs, t.block);
    VisibleForestKeys(defs, t.children, below);
    if c == t.block {
      forall a ensures !Ancestor(t, a, c) {
        if AncestorInForest(t.children, a, c) {
          AncestorLabels(t.children, a, c);
        }
      }
    } else {
      VisibleForestIsAncestors(defs, t.children, below, c, x);
      assert forall a :: AncestorInForest(t.children, a, c) ==> Ancestor(t, a, c);
      assert Ancestor(t, t.block, c);
    }
  }

  lemma {:induction false} VisibleForestIsAncestors(defs: DefMap, ts: seq<DomTree>, inherited: set<Reg>, c: Label, x: Reg)
    requires DistinctForest(ts) && c in ForestLabels(ts)
    ensures c in VisibleForest(defs, ts, inherited)
    ensures x in VisibleForest(defs, ts, inherited)[c] <==>
      x in inherited || exists a :: AncestorInForest(ts, a, c) && x in Get(defs, a)
    decreases ts, 0
  {
    VisibleForestKeys(defs, ts[1..], inherited);
    VisibleKeys(defs, ts[0], inherited);
    forall a | AncestorInForest(ts[1..], a, c) ensures c in ForestLabels(ts[1..]) {
      AncestorLabels(ts[1..], a, c);
    }
    forall a | Ancestor(ts[0], a, c) ensures c in Labels(ts[0]) {
      AncestorLabels([ts[0]], a, c);
    }
    if c in Labels(ts[0]) {
      VisibleIsAncestors(defs, ts[0], inherited, c, x);
      assert forall a :: AncestorInForest(ts, a, c) <==> Ancestor(ts[0], a, c);
    } else {
      VisibleForestIsAncestors(defs, ts[1..], inherited, c, x);
      assert forall a :: AncestorInForest(ts, a, c) <==> AncestorInForest(ts[1..], a, c);
    }
  }

  lemma {:induction false} AncestorLabels(ts: seq<DomTree>, a: Label, c: Label)
    requires AncestorInForest(ts, a, c)
    ensures a in ForestLabels(ts) && c in ForestLabels(ts)
    decreases ts
  {
    if Ancestor(ts[0], a, c) {
      if AncestorInForest(ts[0].children, a, c) {
        AncestorLabels(ts[0].children, a, c);
      }
    } else {
      AncestorLabels(ts[1..], a, c);
    }
  }

  // ---------- The worklist ----------

  lemma {:induction false} ForestSizeAppend(x: seq<DomTree>, y: seq<DomTree>)
    ensures ForestSize(x + y) == ForestSize(x) + ForestSize(y)
    decreases |x|
  {
    if x == [] {
      assert x + y == y;
    } else {
      ForestSizeAppend(x[1..], y);
      assert (x + y)[0] == x[0] && (x + y)[1..] == x[1..] + y;
    }
  }

  lemma {:induction false} ForestMember(ts: seq<DomTree>, i: nat)
    requires i < |ts|
    ensures Labels(ts[i]) <= ForestLabels(ts)
    ensures DistinctForest(ts) ==> Distinct(ts[i])
    decreases |ts|
  {
    if i > 0 {
      ForestMember(ts[1..], i - 1);
    }
  }

  lemma {:induction false} ForestWitness(ts: seq<DomTree>, c: Label) returns (i: nat)
    requires c in ForestLabels(ts)
    ensures i < |ts| && c in Labels(ts[i])
    decreases |ts|
  {
    if c in Labels(ts[0]) {
      i := 0;
    } else {
      i := ForestWitness(ts[1..], c);
      i := i + 1;
    }
  }

  lemma {:induction false} ForestDisjoint(ts: seq<DomTree>, i: nat, j: nat)
    requires DistinctForest(ts) && i < j < |ts|
    ensures Labels(ts[i]) !! Labels(ts[j])
    decreases |ts|
  {
    if i == 0 {
      ForestMember(ts[1..], j - 1);
    } else {
      ForestDisjoint(ts[1..], i - 1, j - 1);
    }
  }

  lemma {:induction false} VisibleForestAt(defs: DefMap, ts: seq<DomTree>, inherited: set<Reg>, i: nat, c: Label)
    requires DistinctForest(ts) && i < |ts| && c in Labels(ts[i])
    ensures c in VisibleForest(defs, ts, inherited) && c in Visible(defs, ts[i], inherited)
    ensures VisibleForest(defs, ts, inherited)[c] == Visible(defs, ts[i], inherited)[c]
    decreases |ts|
  {
    VisibleKeys(defs, ts[0], inherited);
    if i > 0 {
      ForestDisjoint(ts, 0, i);
      VisibleForestAt(defs, ts[1..], inherited, i - 1, c);
    }
  }

  /** The analysis result agrees with what node `t` will still hand down, given what it has now. */
  ghost predicate Agrees(defs: DefMap, result: DefMap, t: DomTree, inherited: set<Reg>) {
    forall c :: c in Labels(t) ==>
      c in result && c in Visible(defs, t, inherited) && result[c] == Visible(defs, t, inherited)[c]
  }

  ghost predicate Disjoint(ts: seq<DomTree>) {
    forall i, j :: 0 <= i < j < |ts| ==> Labels(ts[i]) !! Labels(ts[j])
  }

  /** Waiting nodes already have their entry; nothing below them has. */
  ghost predicate Waiting(defs: DefMap, result: DefMap, m: DefMap, t: DomTree) {
    t.block in m && Distinct(t) && m.Keys !! ForestLabels(t.children) && Agrees(defs, result, t, m[t.block])
  }

  /** Children of the node being processed that have not been visited. */
  ghost predicate Unvisited(defs: DefMap, result: DefMap, m: DefMap, t: DomTree, inherited: set<Reg>) {
    Distinct(t) && m.Keys !! Labels(t) && Agrees(defs, result, t, inherited)
  }

  ghost predicate Worklist(defs: DefMap, result: DefMap, m: DefMap, stack: seq<DomTree>,
                           rest: seq<DomTree>, inherited: set<Reg>) {
    && (forall c :: c in m ==> c in result && m[c] == result[c])
    && (forall i :: 0 <= i < |stack| ==> Waiting(defs, result, m, stack[i]))
    && (forall i :: 0 <= i < |rest| ==> Unvisited(defs, result, m, rest[i], inherited))
    && Disjoint(stack + rest)
    && (forall c :: c in result ==> c in m || c in ForestLabels(stack + rest))
  }

  lemma Covered(ts: seq<DomTree>, c: Label)
    ensures c in ForestLabels(ts) <==> exists i :: 0 <= i < |ts| && c in Labels(ts[i])
  {
    if c in ForestLabels(ts) {
      var i := ForestWitness(ts, c);
    }
    forall i | 0 <= i < |ts| && c in Labels(ts[i]) ensures c in ForestLabels(ts) {
      ForestMember(ts, i);
    }
  }

  lemma ChildUnvisited(defs: DefMap, result: DefMap, m: DefMap, t: DomTree, i: nat)
    requires Waiting(defs, result, m, t) && i < |t.children|
    ensures Unvisited(defs, result, m, t.children[i], m[t.block] + Get(defs, t.block))
  {
    var inherited := m[t.block] + Get(defs, t.block);
    ForestMember(t.children, i);
    forall c | c in Labels(t.children[i])
      ensures c in result && c in Visible(defs, t.children[i], inherited)
      ensures result[c] == Visible(defs, t.children[i], inherited)[c]
    {
      VisibleForestAt(defs, t.children, inherited, i, c);
      assert c in Labels(t);
    }
  }

  lemma ChildLabels(t: DomTree)
    ensures ForestLabels(t.children) <= Labels(t)
    ensures Distinct(t) ==> DistinctForest(t.children)
  {
  }

  lemma PopDisjoint(base: seq<DomTree>, t: DomTree)
    requires Disjoint(base + [t]) && Distinct(t)
    ensures Disjoint(base + t.children)
  {
    hide Labels, ForestLabels, Distinct, DistinctForest;
    ChildLabels(t);
    var n, all := |base|, base + t.children;
    assert (base + [t])[n] == t;
    forall i, j | 0 <= i < j < |all| ensures Labels(all[i]) !! Labels(all[j]) {
      if n <= i {
        ForestDisjoint(t.children, i - n, j - n);
      } else if n <= j {
        ForestMember(t.children, j - n);
        assert (base + [t])[i] == base[i];
        assert Labels((base + [t])[i]) !! Labels((base + [t])[n]);
      } else {
        assert (base + [t])[i] == base[i] && (base + [t])[j] == base[j];
      }
    }
  }

  lemma PopCovered(base: seq<DomTree>, t: DomTree, c: Label)
    requires c in ForestLabels(base + [t]) && c != t.block
    ensures c in ForestLabels(base + t.children)
  {
    var i := ForestWitness(base + [t], c);
    Covered(base + t.children, c);
    if i < |base| {
      assert (base + t.children)[i] == base[i];
    } else {
      var k := ForestWitness(t.children, c);
      assert (base + t.children)[|base| + k] == t.children[k];
    }
  }

  lemma PopNode(defs: DefMap, result: DefMap, m: DefMap, base: seq<DomTree>, t: DomTree)
    requires Worklist(defs, result, m, base + [t], [], {})
    ensures t.block in m && Worklist(defs, result, m, base, t.children, m[t.block] + Get(defs, t.block))
  {
    assert (base + [t]) + [] == base + [t];
    assert (base + [t])[|base|] == t;
    assert Waiting(defs, result, m, t);
    forall i | 0 <= i < |t.children|
      ensures Unvisited(defs, result, m, t.children[i], m[t.block] + Get(defs, t.block))
    {
      ChildUnvisited(defs, result, m, t, i);
    }
    forall i | 0 <= i < |base| ensures Waiting(defs, result, m, base[i]) {
      assert (base + [t])[i] == base[i];
    }
    PopDisjoint(base, t);
    forall c | c in result && c !in m ensures c in ForestLabels(base + t.children) {
      PopCovered(base, t, c);
    }
  }

  lemma VisitChild(defs: DefMap, result: DefMap, m: DefMap, stack: seq<DomTree>, rest: seq<DomTree>, inherited: set<Reg>)
    requires rest != [] && Worklist(defs, result, m, stack, rest, inherited)
    ensures rest[0].block !in m
    ensures Worklist(defs, result, m[rest[0].block := inherited], stack + [rest[0]], rest[1..], inherited)
  {
    hide Waiting, Unvisited, Labels, ForestLabels, Visible;
    var t := rest[0];
    var m' := m[t.block := inherited];
    var all := stack + rest;
    assert all == stack + [t] + rest[1..];
    assert all[|stack|] == t;
    assert Unvisited(defs, result, m, t, inherited);
    NowWaiting(defs, result, m, t, inherited);
    assert stack + [t] + rest[1..] == all;
    forall i | 0 <= i < |stack| ensures Waiting(defs, result, m', stack[i]) {
      assert all[i] == stack[i];
      assert Labels(all[i]) !! Labels(all[|stack|]);
      StillWaiting(defs, result, m, stack[i], t.block, inherited);
    }
    forall i | 0 <= i < |rest| - 1 ensures Unvisited(defs, result, m', rest[1..][i], inherited) {
      assert all[|stack| + 1 + i] == rest[i + 1];
      assert Labels(all[|stack|]) !! Labels(all[|stack| + 1 + i]);
      assert Unvisited(defs, result, m, rest[i + 1], inherited);
      StillUnvisited(defs, result, m, rest[i + 1], t.block, inherited);
    }
  }

  lemma NowWaiting(defs: DefMap, result: DefMap, m: DefMap, t: DomTree, inherited: set<Reg>)
    requires Unvisited(defs, result, m, t, inherited)
    ensures t.block in Labels(t) && t.block !in m && t.block in result && result[t.block] == inherited
    ensures Waiting(defs, result, m[t.block := inherited], t)
  {
    hide Visible;
    VisibleRoot(defs, t, inherited);
  }

  lemma StillWaiting(defs: DefMap, result: DefMap, m: DefMap, t: DomTree, b: Label, inherited: set<Reg>)
    requires Waiting(defs, result, m, t) && b !in Labels(t)
    ensures Waiting(defs, result, m[b := inherited], t)
  {
    hide Visible;
  }

  lemma StillUnvisited(defs: DefMap, result: DefMap, m: DefMap, t: DomTree, b: Label, inherited: set<Reg>)
    requires Unvisited(defs, result, m, t, inherited) && b !in Labels(t)
    ensures Unvisited(defs, result, m[b := inherited], t, inherited)
  {
    hide Visible, Labels;
  }

  lemma VisibleRoot(defs: DefMap, t: DomTree, inherited: set<Reg>)
    requires Distinct(t)
    ensures t.block in Visible(defs, t, inherited) && Visible(defs, t, inherited)[t.block] == inherited
  {
    VisibleForestKeys(defs, t.children, inherited + Get(defs, t.block));
  }

  lemma StartWorklist(defs: DefMap, t: DomTree, args: set<Reg>)
    requires Distinct(t)
    ensures Worklist(defs, Visible(defs, t, args), map[t.block := args], [t], [], {})
  {
    VisibleRoot(defs, t, args);
    VisibleKeys(defs, t, args);
    assert [t] + [] == [t];
    assert ForestLabels([t]) == Labels(t) + ForestLabels([]);
  }

  lemma TreeAncestor(f: Func, t: DomTree, c: Label)
    requires IsDominatorTree(f, t) && c in Labels(t)
    ensures forall a :: Ancestor(t, a, c) <==> a in f.blocks && StrictlyDominates(f, a, c)
  {
    forall a | Ancestor(t, a, c) ensures a in f.blocks {
      AncestorLabels([t], a, c);
      assert ForestLabels([t]) == Labels(t) + ForestLabels([]);
    }
  }

  lemma VisibleIsDominators(f: Func, defs: DefMap, t: DomTree, c: Label, x: Reg)
    requires IsDominatorTree(f, t) && c in Labels(t)
    requires defs.Keys == f.blocks.Keys && forall a :: a in f.blocks ==> defs[a] == IntDefs(f.blocks[a])
    ensures c in Visible(defs, t, f.args)
    ensures x in Visible(defs, t, f.args)[c] <==>
      x in f.args || exists a :: a in f.blocks && StrictlyDominates(f, a, c) && x in IntDefs(f.blocks[a])
  {
    hide StrictlyDominates;
    VisibleIsAncestors(defs, t, f.args, c, x);
    TreeAncestor(f, t, c);
    forall a | Ancestor(t, a, c) && x in Get(defs, a)
      ensures a in f.blocks && StrictlyDominates(f, a, c) && x in IntDefs(f.blocks[a])
    {
    }
    forall a | a in f.blocks && StrictlyDominates(f, a, c) && x in IntDefs(f.blocks[a])
      ensures Ancestor(t, a, c) && x in Get(defs, a)
    {
    }
  }

  /** A block sees exactly the arguments and the integers its strict dominators define. */
  ghost predicate SeesDominators(f: Func, m: DefMap) {
    forall c, x :: c in m ==>
      (x in m[c] <==>
        x in f.args || exists a :: a in f.blocks && StrictlyDominates(f, a, c) && x in IntDefs(f.blocks[a]))
  }

  /** `x` is an argument, or an integer PHI or instruction of a strict dominator of `c`. */
  ghost predicate Sees(f: Func, c: Label, x: Reg) {
    || x in f.args
    || (exists a, i :: a in f.blocks && StrictlyDominates(f, a, c) && 0 <= i < |f.blocks[a].phis|
          && f.blocks[a].phis[i].dst == x && f.blocks[a].phis[i].ty.IntTy?)
    || (exists a, i :: a in f.blocks && StrictlyDominates(f, a, c) && 0 <= i < |f.blocks[a].body|
          && f.blocks[a].body[i].dst.Some? && f.blocks[a].body[i].dst.value == x && f.blocks[a].body[i].ty.IntTy?)
  }

  lemma SeenValue(f: Func, m: DefMap, c: Label, x: Reg)
    requires SeesDominators(f, m) && c in m
    ensures x in m[c] <==> Sees(f, c, x)
  {
    hide StrictlyDominates, IntDefs;
    if x in m[c] && x !in f.args {
      var a :| a in f.blocks && StrictlyDominates(f, a, c) && x in IntDefs(f.blocks[a]);
      InIntDefs(f.blocks[a], x);
    }
    if Sees(f, c, x) && x !in f.args {
      if a, i :| (a in f.blocks && StrictlyDominates(f, a, c) && 0 <= i < |f.blocks[a].phis|
                  && f.blocks[a].phis[i].dst == x && f.blocks[a].phis[i].ty.IntTy?) {
        InIntDefs(f.blocks[a], x);
      } else {
        var a, i :| a in f.blocks && StrictlyDominates(f, a, c) && 0 <= i < |f.blocks[a].body|
          && f.blocks[a].body[i].dst.Some? && f.blocks[a].body[i].dst.value == x && f.blocks[a].body[i].ty.IntTy?;
        InIntDefs(f.blocks[a], x);
      }
    }
  }

  lemma AllSee(f: Func, m: DefMap)
    requires SeesDominators(f, m)
    ensures forall c, x :: c in m ==> (x in m[c] <==> Sees(f, c, x))
  {
    hide SeesDominators, Sees;
    forall c, x | c in m ensures x in m[c] <==> Sees(f, c, x) {
      SeenValue(f, m, c, x);
    }
  }

  lemma AllSeeDominators(f: Func, defs: DefMap, t: DomTree)
    requires IsDominatorTree(f, t)
    requires defs.Keys == f.blocks.Keys && forall a :: a in f.blocks ==> defs[a] == IntDefs(f.blocks[a])
    ensures SeesDominators(f, Visible(defs, t, f.args))
  {
    VisibleKeys(defs, t, f.args);
    forall c, x | c in Labels(t)
      ensures x in Visible(defs, t, f.args)[c] <==>
        x in f.args || exists a :: a in f.blocks && StrictlyDominates(f, a, c) && x in IntDefs(f.blocks[a])
    {
      VisibleIsDominators(f, defs, t, c, x);
    }
  }

  /** Every value the analysis reports for a block is available there, hence computed in every run
      that reaches it. */
  lemma ReportedIsAvailable(f: Func, m: DefMap, c: Label, x: Reg)
    requires Bounded(f) && SeesDominators(f, m) && c in m && x in m[c]
    ensures AvailIn(f, c, x) && x < f.nextReg
  {
    if x !in f.args {
      var a :| a in f.blocks && StrictlyDominates(f, a, c) && x in IntDefs(f.blocks[a]);
      IntDefsAreDefs(f.blocks[a], f.nextReg, x);
      assert BoundedBlock(f.blocks[a], f.nextReg);
      DominatingDefinition(f, a, c, x);
    }
  }

  lemma IntDefsAreDefs(b: Block, n: nat, x: Reg)
    requires x in IntDefs(b)
    ensures x in Defs(b)
    ensures BoundedBlock(b, n) ==> x < n
  {
    if i :| 0 <= i < |b.phis| && b.phis[i].ty.IntTy? && b.phis[i].dst == x {
      assert BoundedBlock(b, n) ==> BoundedPhi(b.phis[i], n);
    } else {
      var i :| 0 <= i < |b.body| && b.body[i].dst.Some? && b.body[i].ty.IntTy? && b.body[i].dst.value == x;
      assert BoundedBlock(b, n) ==> BoundedInstr(b.body[i], n);
    }
  }

  lemma {:induction false} ForestSizeReplace(base: seq<DomTree>, t: DomTree)
    ensures ForestSize(base + t.children) < ForestSize(base + [t])
  {
    ForestSizeAppend(base, t.children);
    ForestSizeAppend(base, [t]);
    assert ForestSize([t]) == Size(t) + ForestSize([]);
  }

  lemma NodeDone(defs: DefMap, result: DefMap, m: DefMap, stack: seq<DomTree>, inherited: set<Reg>)
    requires Worklist(defs, result, m, stack, [], inherited)
    ensures Worklist(defs, result, m, stack, [], {})
  {
  }

  lemma DominatorTreeParts(f: Func, t: DomTree)
    requires IsDominatorTree(f, t)
    ensures Distinct(t) && t.block == f.entry
  {
  }

  lemma FinishWorklist(defs: DefMap, result: DefMap, m: DefMap)
    requires Worklist(defs, result, m, [], [], {})
    ensures m == result
  {
    var none: seq<DomTree> := [];
    assert none + none == none;
    assert m.Keys == result.Keys;
  }

  class Analysis {
    var rivMap: DefMap

    /** Step 1: the integer values of each block. */
    static method DefinedValues(f: Func, order: seq<Label>) returns (defs: DefMap)
      requires forall c :: c in order <==> c in f.blocks
      ensures defs.Keys == f.blocks.Keys
      ensures forall c :: c in f.blocks ==> defs[c] == IntDefs(f.blocks[c])
      ensures forall c, x :: c in f.blocks ==>
        var b := f.blocks[c];
        (x in defs[c] <==>
          || (exists i :: 0 <= i < |b.phis| && b.phis[i].dst == x && b.phis[i].ty.IntTy?)
          || (exists i :: 0 <= i < |b.body| && b.body[i].dst.Some? && b.body[i].dst.value == x && b.body[i].ty.IntTy?))
    {
      defs := map[];
      for k := 0 to |order|
        invariant forall c :: c in defs <==> c in order[..k]
        invariant forall c :: c in defs ==> c in f.blocks && defs[c] == IntDefs(f.blocks[c])
      {
        var b := f.blocks[order[k]];
        var values: set<Reg> := {};
        for i := 0 to |b.phis|
          invariant values == set j | 0 <= j < i && b.phis[j].ty.IntTy? :: b.phis[j].dst
        {
          if b.phis[i].ty.IntTy? {
            values := values + {b.phis[i].dst};
          }
        }
        ghost var phiValues := values;
        for i := 0 to |b.body|
          invariant values == phiValues
            + (set j | 0 <= j < i && b.body[j].dst.Some? && b.body[j].ty.IntTy? :: b.body[j].dst.value)
        {
          if b.body[i].dst.Some? && b.body[i].ty.IntTy? {
            values := values + {b.body[i].dst.value};
          }
        }
        defs := defs[order[k] := values];
      }
      assert order[..|order|] == order;
      forall c, x | c in f.blocks
        ensures var b := f.blocks[c];
          (x in defs[c] <==>
            || (exists i :: 0 <= i < |b.phis| && b.phis[i].dst == x && b.phis[i].ty.IntTy?)
            || (exists i :: 0 <= i < |b.body| && b.body[i].dst.Some? && b.body[i].dst.value == x && b.body[i].ty.IntTy?))
      {
        hide IntDefs;
        InIntDefs(f.blocks[c], x);
      }
    }

    /** Step 2: the worklist over the dominator tree. The order of blocks and the tree are given. */
    method RunOnFunction(f: Func, order: seq<Label>, root: DomTree)
      requires forall c :: c in order <==> c in f.blocks
      requires IsDominatorTree(f, root)
      modifies this
      ensures rivMap.Keys == Labels(root)
      ensures SeesDominators(f, rivMap)
      ensures forall c, x :: c in Labels(root) ==> (x in rivMap[c] <==> Sees(f, c, x))
    {
      hide *;
      DominatorTreeParts(f, root);
      GetIs(map[], f.entry);
      rivMap := map[];
      var defs := DefinedValues(f, order);
      rivMap := rivMap[f.entry := Get(rivMap, f.entry) + f.args];
      var stack := [root];
      ghost var result := Visible(defs, root, f.args);
      StartWorklist(defs, root, f.args);
      assert {} + f.args == f.args;
      assert rivMap == map[root.block := f.args];
      while stack != []
        invariant Worklist(defs, result, rivMap, stack, [], {})
        decreases ForestSize(stack)
      {
        var node := stack[|stack| - 1];
        ghost var base := stack[..|stack| - 1];
        assert stack == base + [node];
        PopNode(defs, result, rivMap, base, node);
        ForestSizeReplace(base, node);
        stack := stack[..|stack| - 1];
        ghost var inherited := rivMap[node.block] + Get(defs, node.block);
        for i := 0 to |node.children|
          invariant stack == base + node.children[..i]
          invariant Worklist(defs, result, rivMap, stack, node.children[i..], inherited)
          invariant node.block in rivMap && inherited == rivMap[node.block] + Get(defs, node.block)
        {
          VisitChild(defs, result, rivMap, stack, node.children[i..], inherited);
          GetIs(rivMap, node.children[i].block);
          assert node.children[i..][1..] == node.children[i + 1..];
          var child := node.children[i];
          ghost var m := rivMap;
          assert node.children[i..][0] == child;
          stack := stack + [child];
          rivMap := rivMap[child.block := Get(rivMap, child.block) + Get(defs, node.block)];
          GetIs(rivMap, child.block);
          GetIs(rivMap, node.block);
          rivMap := rivMap[child.block := Get(rivMap, child.block) + Get(rivMap, node.block)];
          assert ({} + Get(defs, node.block)) + m[node.block] == inherited;
          assert rivMap == m[child.block := inherited];
        }
        assert stack == base + node.children;
        assert node.children[|node.children|..] == [];
        NodeDone(defs, result, rivMap, stack, inherited);
      }
      FinishWorklist(defs, result, rivMap);
      VisibleKeys(defs, root, f.args);
      AllSeeDominators(f, defs, root);
      AllSee(f, rivMap);
    }
  }
}
