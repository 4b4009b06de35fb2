/** Duplicating one block keeps SSA well-formedness: unique definitions, PHI labels, dominance. */
module DuplicationForm {
  import opened Wrappers
  import opened Ssa
  import opened SsaForm
  import opened Duplication
  import opened DuplicationSim

  // ---------- What each block defines ----------

  lemma {:induction false} TailPhiOrigin(f: Func, body: seq<Instr>, j: nat, i: nat) returns (k: nat)
    requires j <= |body| && i < |TailPhis(f, body, j)|
    ensures k < j && body[k].dst.Some? && TailPhis(f, body, j)[i] == MergePhi(f, body[k], k)
  {
    if body[j - 1].dst.Some? && i == |TailPhis(f, body, j)| - 1 {
      k := j - 1;
    } else {
      k := TailPhiOrigin(f, body, j - 1, i);
    }
  }

  lemma {:induction false} TailPhiExists(f: Func, body: seq<Instr>, j: nat, k: nat)
    requires j <= |body| && k < j && body[k].dst.Some?
    ensures PhiReg(f, k) in PhiDsts(TailPhis(f, body, j))
  {
    var phis := TailPhis(f, body, j);
    if k == j - 1 {
      assert phis[|phis| - 1].dst == PhiReg(f, k);
    } else {
      TailPhiExists(f, body, j - 1, k);
      var rest := TailPhis(f, body, j - 1);
      var i :| 0 <= i < |rest| && rest[i].dst == PhiReg(f, k);
      assert phis[i] == rest[i];
    }
  }

  ghost predicate DistinctPhis(phis: seq<Phi>) {
    forall i, j :: 0 <= i < j < |phis| ==> phis[i].dst != phis[j].dst
  }

  lemma {:induction false} TailPhisDistinct(f: Func, body: seq<Instr>, j: nat)
    requires j <= |body|
    ensures DistinctPhis(TailPhis(f, body, j))
  {
    if j > 0 {
      TailPhisDistinct(f, body, j - 1);
      if body[j - 1].dst.Some? {
        var phis := TailPhis(f, body, j);
        var rest := TailPhis(f, body, j - 1);
        assert phis == rest + [MergePhi(f, body[j - 1], j - 1)];
        forall i, k | 0 <= i < k < |phis| ensures phis[i].dst != phis[k].dst {
          assert phis[i] == rest[i];
          if k == |rest| {
            var h := TailPhiOrigin(f, body, j - 1, i);
          } else {
            assert phis[k] == rest[k];
          }
        }
      }
    }
  }

  /** Blocks of the old function other than `b` keep their definitions. */
  lemma OtherDefs(f: Func, b: Label, ctx: Reg, c: Label)
    requires Bounded(f) && b in f.blocks && c in f.blocks && c != b
    ensures c in Duplicated(f, b, ctx).blocks
    ensures var B, B' := f.blocks[c], Duplicated(f, b, ctx).blocks[c];
      && B' == SubstBlock(Replaced(f, b), Retarget(f, b, c))
      && PhiDsts(B'.phis) == PhiDsts(B.phis) && BodyDsts(B'.body) == BodyDsts(B.body) && Defs(B') == Defs(B)
  {
    var B, B' := f.blocks[c], Duplicated(f, b, ctx).blocks[c];
    assert c < f.nextLabel;
    SameDsts(B, B');
  }

  lemma SameDsts(B: Block, B': Block)
    requires |B.phis| == |B'.phis| && forall i :: 0 <= i < |B.phis| ==> B.phis[i].dst == B'.phis[i].dst
    requires |B.body| == |B'.body| && forall i :: 0 <= i < |B.body| ==> B.body[i].dst == B'.body[i].dst
    ensures PhiDsts(B.phis) == PhiDsts(B'.phis) && BodyDsts(B.body) == BodyDsts(B'.body)
    ensures forall i :: 0 <= i <= |B.body| ==> DefsBefore(B, i) == DefsBefore(B', i)
  {
    forall r | r in PhiDsts(B.phis) ensures r in PhiDsts(B'.phis) {
      var i :| 0 <= i < |B.phis| && B.phis[i].dst == r;
      assert B'.phis[i].dst == r;
    }
    forall r | r in PhiDsts(B'.phis) ensures r in PhiDsts(B.phis) {
      var i :| 0 <= i < |B.phis| && B'.phis[i].dst == r;
      assert B.phis[i].dst == r;
    }
    SameBodyDsts(B.body, B'.body);
    forall i | 0 <= i <= |B.body| ensures DefsBefore(B, i) == DefsBefore(B', i) {
      SameBodyDsts(B.body[..i], B'.body[..i]);
    }
  }

  lemma SameBodyDsts(x: seq<Instr>, y: seq<Instr>)
    requires |x| == |y| && forall i :: 0 <= i < |x| ==> x[i].dst == y[i].dst
    ensures BodyDsts(x) == BodyDsts(y)
  {
    forall r | r in BodyDsts(x) ensures r in BodyDsts(y) {
      var i :| 0 <= i < |x| && x[i].dst.Some? && x[i].dst.value == r;
      assert y[i].dst.Some? && y[i].dst.value == r;
    }
    forall r | r in BodyDsts(y) ensures r in BodyDsts(x) {
      var i :| 0 <= i < |y| && y[i].dst.Some? && y[i].dst.value == r;
      assert x[i].dst.Some? && x[i].dst.value == r;
    }
  }

  lemma HeadDefs(f: Func, b: Label, ctx: Reg)
    requires Bounded(f) && b in f.blocks
    ensures var B, B' := f.blocks[b], Duplicated(f, b, ctx).blocks[b];
      && B'.body == SubstBody(Replaced(f, b), [CondInstr(f, ctx)])
      && B'.phis == SubstPhis(Replaced(f, b), Retarget(f, b, b).phis)
      && B'.term == Branch(Use(CondReg(f)), ThenLabel(f), ElseLabel(f))
      && PhiDsts(B'.phis) == PhiDsts(B.phis)
      && BodyDsts(B'.body) == {CondReg(f)}
  {
    var B, B' := f.blocks[b], Duplicated(f, b, ctx).blocks[b];
    assert b < f.nextLabel;
    SameDsts(Block(B.phis, [], B.term), Block(B'.phis, [], B.term));
    BodyDstsAt(B'.body, 0);
  }

  /** Every name a block of the new function defines: an old one it already defined, or a new one
      that shows by its remainder which block it belongs to. */
  ghost predicate OwnName(f: Func, b: Label, c: Label, r: Reg) {
    if c == ThenLabel(f) then r > f.nextReg && (r - f.nextReg) % 3 == 1
    else if c == ElseLabel(f) then r > f.nextReg && (r - f.nextReg) % 3 == 2
    else if c == TailLabel(f) then r > f.nextReg && (r - f.nextReg) % 3 == 0
    else (c in f.blocks && r in Defs(f.blocks[c])) || (c == b && r == CondReg(f))
  }

  lemma ArmDefsAreOwn(f: Func, b: Label, base: nat, r: Reg)
    requires b in f.blocks && (base == ThenReg(f, 0) || base == ElseReg(f, 0))
    requires r in Defs(ArmBlock(f, b, base, |f.blocks[b].body|))
    ensures exists i: nat :: i < |f.blocks[b].body| && r == base + 3 * i
  {
    var n := |f.blocks[b].body|;
    var code := ArmBlock(f, b, base, n).body;
    var i :| 0 <= i < n && code[i].dst.Some? && code[i].dst.value == r;
    assert r == base + 3 * i;
  }

  lemma TailDefsAreOwn(f: Func, body: seq<Instr>, m: Renaming, t: Term, r: Reg)
    requires r in Defs(Block(TailPhis(f, body, |body|), SubstBody(m, []), t))
    ensures exists i: nat :: i < |body| && r == PhiReg(f, i)
  {
    var phis := TailPhis(f, body, |body|);
    var i :| 0 <= i < |phis| && phis[i].dst == r;
    var k := TailPhiOrigin(f, body, |body|, i);
  }

  lemma DefsAre(b: Block)
    ensures Defs(b) == PhiDsts(b.phis) + BodyDsts(b.body)
  {
  }

  lemma NewNames(f: Func, b: Label, ctx: Reg)
    requires b in f.blocks
    ensures Duplicated(f, b, ctx).nextReg == f.nextReg + 1 + 3 * |f.blocks[b].body|
    ensures CondReg(f) == f.nextReg && ThenReg(f, 0) == f.nextReg + 1 && ElseReg(f, 0) == f.nextReg + 2
    ensures forall i: nat :: PhiReg(f, i) == f.nextReg + 3 + 3 * i
  {
  }

  lemma OwnNameIs(f: Func, b: Label, c: Label, r: Reg)
    ensures OwnName(f, b, c, r) <==>
      if c == ThenLabel(f) then r > f.nextReg && (r - f.nextReg) % 3 == 1
      else if c == ElseLabel(f) then r > f.nextReg && (r - f.nextReg) % 3 == 2
      else if c == TailLabel(f) then r > f.nextReg && (r - f.nextReg) % 3 == 0
      else (c in f.blocks && r in Defs(f.blocks[c])) || (c == b && r == CondReg(f))
  {
    hide Defs;
  }

  lemma DefsAreOwn(f: Func, b: Label, ctx: Reg, c: Label, r: Reg)
    requires Bounded(f) && b in f.blocks
    requires c in Duplicated(f, b, ctx).blocks && r in Defs(Duplicated(f, b, ctx).blocks[c])
    ensures OwnName(f, b, c, r) && r < Duplicated(f, b, ctx).nextReg
  {
    hide *;
    BlocksAre(f, b, ctx);
    NewNames(f, b, ctx);
    OwnNameIs(f, b, c, r);
    var B, B' := f.blocks[b], Duplicated(f, b, ctx).blocks[c];
    if c == ThenLabel(f) {
      ArmDefsAreOwn(f, b, ThenReg(f, 0), r);
    } else if c == ElseLabel(f) {
      ArmDefsAreOwn(f, b, ElseReg(f, 0), r);
    } else if c == TailLabel(f) {
      TailDefsAreOwn(f, B.body, Replaced(f, b), SubstTerm(Replaced(f, b), B.term), r);
    } else if c == b {
      HeadDefs(f, b, ctx);
      OldDefsBounded(f, b);
      DefsAre(B);
      DefsAre(B');
    } else {
      OtherDefs(f, b, ctx, c);
      OldDefsBounded(f, c);
    }
  }

  lemma OldDefsBounded(f: Func, c: Label)
    requires Bounded(f) && c in f.blocks
    ensures forall r :: r in Defs(f.blocks[c]) ==> r < f.nextReg
  {
    assert BoundedBlock(f.blocks[c], f.nextReg);
    forall r | r in Defs(f.blocks[c]) ensures r < f.nextReg {
      if r in PhiDsts(f.blocks[c].phis) {
        var i :| 0 <= i < |f.blocks[c].phis| && f.blocks[c].phis[i].dst == r;
        assert BoundedPhi(f.blocks[c].phis[i], f.nextReg);
      } else {
        var i :| 0 <= i < |f.blocks[c].body| && f.blocks[c].body[i].dst == Some(r);
        assert BoundedInstr(f.blocks[c].body[i], f.nextReg);
      }
    }
  }

  /** A replaced value is erased: no block defines it any more. A later condition that still named it
      would read an undefined register, so the lookup in the table is necessary. */
  lemma ReplacedIsErased(f: Func, b: Label, ctx: Reg, r: Reg, c: Label)
    requires Bounded(f) && UniqueDefs(f) && b in f.blocks && r in BodyDsts(f.blocks[b].body)
    requires c in Duplicated(f, b, ctx).blocks
    ensures r !in Defs(Duplicated(f, b, ctx).blocks[c])
  {
    OldDefsBounded(f, b);
    if r in Defs(Duplicated(f, b, ctx).blocks[c]) {
      DefsAreOwn(f, b, ctx, c, r);
      assert UniqueInBlock(f.blocks[b]);
      HeadDefs(f, b, ctx);
    }
  }

  lemma UniqueAfter(f: Func, b: Label, ctx: Reg)
    requires Bounded(f) && UniqueDefs(f) && b in f.blocks
    ensures UniqueDefs(Duplicated(f, b, ctx))
  {
    var f' := Duplicated(f, b, ctx);
    forall c | c in f'.blocks ensures UniqueInBlock(f'.blocks[c]) && f'.args !! Defs(f'.blocks[c]) {
      UniqueInBlockAfter(f, b, ctx, c);
      forall r | r in Defs(f'.blocks[c]) ensures r !in f.args {
        DefsAreOwn(f, b, ctx, c, r);
        if c in f.blocks {
          assert f.args !! Defs(f.blocks[c]);
        }
      }
    }
    forall c, d | c in f'.blocks && d in f'.blocks && c != d ensures Defs(f'.blocks[c]) !! Defs(f'.blocks[d]) {
      forall r | r in Defs(f'.blocks[c]) && r in Defs(f'.blocks[d]) ensures false {
        DefsAreOwn(f, b, ctx, c, r);
        DefsAreOwn(f, b, ctx, d, r);
        OwnNamesDiffer(f, b, c, d, r);
      }
    }
  }

  lemma OwnNamesDiffer(f: Func, b: Label, c: Label, d: Label, r: Reg)
    requires Bounded(f) && UniqueDefs(f) && b in f.blocks && c != d
    ensures !(OwnName(f, b, c, r) && OwnName(f, b, d, r))
  {
    if c in f.blocks { OldDefsBounded(f, c); }
    if d in f.blocks { OldDefsBounded(f, d); }
  }

  lemma ArmUnique(f: Func, b: Label, base: nat)
    requires b in f.blocks
    ensures UniqueInBlock(ArmBlock(f, b, base, |f.blocks[b].body|))
  {
    var B' := ArmBlock(f, b, base, |f.blocks[b].body|);
    forall i, j | 0 <= i < j < |B'.body| && B'.body[i].dst.Some? ensures B'.body[i].dst != B'.body[j].dst {
      assert B'.body[i].dst.value == base + 3 * i;
      assert B'.body[j].dst.Some? ==> B'.body[j].dst.value == base + 3 * j;
    }
    assert PhiDsts(B'.phis) == {};
  }

  lemma HeadUnique(f: Func, b: Label, ctx: Reg)
    requires Bounded(f) && b in f.blocks && UniqueInBlock(f.blocks[b])
    ensures UniqueInBlock(Duplicated(f, b, ctx).blocks[b])
  {
    var B, B' := f.blocks[b], Duplicated(f, b, ctx).blocks[b];
    HeadDefs(f, b, ctx);
    OldDefsBounded(f, b);
    assert forall i :: 0 <= i < |B'.phis| ==> B'.phis[i].dst == B.phis[i].dst;
    assert |B'.body| == 1;
  }

  lemma UniqueInBlockAfter(f: Func, b: Label, ctx: Reg, c: Label)
    requires Bounded(f) && UniqueDefs(f) && b in f.blocks && c in Duplicated(f, b, ctx).blocks
    ensures UniqueInBlock(Duplicated(f, b, ctx).blocks[c])
  {
    var B' := Duplicated(f, b, ctx).blocks[c];
    if c == ThenLabel(f) {
      ArmUnique(f, b, ThenReg(f, 0));
    } else if c == ElseLabel(f) {
      ArmUnique(f, b, ElseReg(f, 0));
    } else if c == TailLabel(f) {
      TailPhisDistinct(f, f.blocks[b].body, |f.blocks[b].body|);
      assert B'.phis == TailPhis(f, f.blocks[b].body, |f.blocks[b].body|) && B'.body == [];
      assert BodyDsts(B'.body) == {};
    } else if c == b {
      HeadUnique(f, b, ctx);
    } else {
      OtherDefs(f, b, ctx, c);
    }
  }

  // ---------- Bounds ----------

  lemma RenamedBounded(f: Func, b: Label, o: Operand, n: nat)
    requires b in f.blocks && BoundedOperand(o, f.nextReg) && n >= f.nextReg + 1 + 3 * |f.blocks[b].body|
    ensures BoundedOperand(SubstOperand(Replaced(f, b), o), n)
  {
    if o.Use? && o.reg in Replaced(f, b) {
      var i := NameMapValue(f.blocks[b].body, PhiReg(f, 0), |f.blocks[b].body|, o.reg);
    }
  }

  lemma CloneBounded(f: Func, b: Label, base: nat, arm: Label, i: nat, n: nat)
    requires b in f.blocks && BoundedBlock(f.blocks[b], f.nextReg) && IsArm(f, base, arm)
    requires i < |f.blocks[b].body| && n >= f.nextReg + 1 + 3 * |f.blocks[b].body|
    ensures BoundedInstr(Clone(f.blocks[b].body, base, Replaced(f, b), i), n)
  {
    var body := f.blocks[b].body;
    assert BoundedInstr(body[i], f.nextReg);
    forall k | 0 <= k < |body[i].args|
      ensures BoundedOperand(SubstOperand(Replaced(f, b) + NameMap(body, base, i), body[i].args[k]), n)
    {
      var o := body[i].args[k];
      assert BoundedOperand(o, f.nextReg);
      if o.Use? && o.reg in NameMap(body, base, i) {
        var h := NameMapValue(body, base, i, o.reg);
      } else {
        RenamedBounded(f, b, o, n);
      }
    }
  }

  lemma SubstBlockBounded(f: Func, b: Label, B: Block, n: nat)
    requires b in f.blocks && BoundedBlock(B, f.nextReg) && n >= f.nextReg + 1 + 3 * |f.blocks[b].body|
    ensures BoundedBlock(SubstBlock(Replaced(f, b), B), n)
  {
    var m := Replaced(f, b);
    forall i | 0 <= i < |B.phis| ensures BoundedPhi(SubstPhi(m, B.phis[i]), n) {
      assert BoundedPhi(B.phis[i], f.nextReg);
      forall l | l in B.phis[i].incoming ensures BoundedOperand(SubstOperand(m, B.phis[i].incoming[l]), n) {
        RenamedBounded(f, b, B.phis[i].incoming[l], n);
      }
    }
    forall i | 0 <= i < |B.body| ensures BoundedInstr(SubstInstr(m, B.body[i]), n) {
      assert BoundedInstr(B.body[i], f.nextReg);
      forall k | 0 <= k < |B.body[i].args| ensures BoundedOperand(SubstOperand(m, B.body[i].args[k]), n) {
        RenamedBounded(f, b, B.body[i].args[k], n);
      }
    }
    var t := SubstTerm(m, B.term);
    forall i | 0 <= i < |TermUses(t)| ensures BoundedOperand(TermUses(t)[i], n) {
      assert TermUses(t)[i] == SubstOperand(m, TermUses(B.term)[i]);
      RenamedBounded(f, b, TermUses(B.term)[i], n);
    }
  }

  lemma RetargetBounded(f: Func, b: Label, c: Label)
    requires Bounded(f) && b in f.blocks && c in f.blocks
    ensures BoundedBlock(Retarget(f, b, c), f.nextReg)
  {
    var B := f.blocks[c];
    assert BoundedBlock(B, f.nextReg);
    forall i | 0 <= i < |B.phis| ensures BoundedPhi(RelabelPhi(b, TailLabel(f), B.phis[i]), f.nextReg) {
      assert BoundedPhi(B.phis[i], f.nextReg);
    }
  }

  lemma BoundedAfter(f: Func, b: Label, ctx: Reg)
    requires Bounded(f) && b in f.blocks && ctx < f.nextReg
    ensures Bounded(Duplicated(f, b, ctx))
  {
    var f' := Duplicated(f, b, ctx);
    forall c | c in f'.blocks ensures c < f'.nextLabel && BoundedBlock(f'.blocks[c], f'.nextReg) {
      BlockBoundedAfter(f, b, ctx, c);
    }
  }

  lemma BlockBoundedAfter(f: Func, b: Label, ctx: Reg, c: Label)
    requires Bounded(f) && b in f.blocks && ctx < f.nextReg
    requires c in Duplicated(f, b, ctx).blocks
    ensures BoundedBlock(Duplicated(f, b, ctx).blocks[c], Duplicated(f, b, ctx).nextReg)
  {
    var f' := Duplicated(f, b, ctx);
    var B, n, k := f.blocks[b], f'.nextReg, |f.blocks[b].body|;
    assert b < f.nextLabel && BoundedBlock(B, f.nextReg);
    if c == ThenLabel(f) || c == ElseLabel(f) {
      var base := if c == ThenLabel(f) then ThenReg(f, 0) else ElseReg(f, 0);
      assert f'.blocks[c] == ArmBlock(f, b, base, k);
      forall i | 0 <= i < k ensures BoundedInstr(f'.blocks[c].body[i], n) {
        CloneBounded(f, b, base, c, i, n);
      }
    } else if c == TailLabel(f) {
      SubstBlockBounded(f, b, Block([], [], B.term), n);
      forall i | 0 <= i < |f'.blocks[c].phis| ensures BoundedPhi(f'.blocks[c].phis[i], n) {
        var h := TailPhiOrigin(f, B.body, k, i);
      }
    } else if c == b {
      RetargetBounded(f, b, b);
      SubstBlockBounded(f, b, Block(Retarget(f, b, b).phis, [], Jump(0)), n);
      RenamedBounded(f, b, Use(ctx), n);
    } else {
      assert c < f.nextLabel;
      RetargetBounded(f, b, c);
      SubstBlockBounded(f, b, Retarget(f, b, c), n);
    }
  }

  // ---------- Control flow ----------

  lemma SubstTermSuccs(m: Renaming, t: Term)
    ensures Succs(SubstTerm(m, t)) == Succs(t)
  {
  }

  lemma SuccsAfter(f: Func, b: Label, ctx: Reg)
    requires Bounded(f) && b in f.blocks
    ensures var f' := Duplicated(f, b, ctx);
      && Succs(f'.blocks[ThenLabel(f)].term) == {TailLabel(f)}
      && Succs(f'.blocks[ElseLabel(f)].term) == {TailLabel(f)}
      && Succs(f'.blocks[TailLabel(f)].term) == Succs(f.blocks[b].term)
      && Succs(f'.blocks[b].term) == {ThenLabel(f), ElseLabel(f)}
      && forall c :: c in f.blocks && c != b ==> Succs(f'.blocks[c].term) == Succs(f.blocks[c].term)
  {
    BlocksAre(f, b, ctx);
    hide Duplicated, SplitBlocks, Bounded, Replaced;
    var f' := Duplicated(f, b, ctx);
    var m := Replaced(f, b);
    SubstTermSuccs(m, f.blocks[b].term);
    var br := Branch(Use(CondReg(f)), ThenLabel(f), ElseLabel(f));
    assert 0 in br.cases && br.cases[0] == ElseLabel(f);
    assert Succs(br) == {ThenLabel(f), ElseLabel(f)};
    forall c | c in f.blocks && c != b ensures Succs(f'.blocks[c].term) == Succs(f.blocks[c].term) {
      SubstTermSuccs(m, f.blocks[c].term);
    }
  }

  lemma ClosedIs(f: Func)
    ensures ClosedCfg(f) <==>
      && f.entry in f.blocks
      && forall c :: c in f.blocks ==> Succs(f.blocks[c].term) <= f.blocks.Keys && f.entry !in Succs(f.blocks[c].term)
  {
    hide Succs;
  }

  lemma SameEntry(f: Func, b: Label, ctx: Reg)
    requires b in f.blocks
    ensures Duplicated(f, b, ctx).entry == f.entry
  {
  }

  lemma ClosedAfter(f: Func, b: Label, ctx: Reg)
    requires Bounded(f) && ClosedCfg(f) && b in f.blocks
    ensures ClosedCfg(Duplicated(f, b, ctx))
  {
    hide *;
    SuccsAfter(f, b, ctx);
    BlocksAre(f, b, ctx);
    SameEntry(f, b, ctx);
    NewLabels(f);
    ClosedIs(f);
    ClosedIs(Duplicated(f, b, ctx));
  }

  lemma PredIs(blocks: map<Label, Block>, c: Label, l: Label)
    ensures l in Preds(blocks, c) <==> l in blocks && c in Succs(blocks[l].term)
  {
  }

  lemma NewLabels(f: Func)
    ensures ThenLabel(f) == f.nextLabel && ElseLabel(f) == f.nextLabel + 1 && TailLabel(f) == f.nextLabel + 2
  {
  }

  /** Predecessors of an old block: the tail stands in for `b`. */
  lemma PredsAfter(f: Func, b: Label, ctx: Reg, c: Label)
    requires Bounded(f) && b in f.blocks && c in f.blocks
    ensures Preds(Duplicated(f, b, ctx).blocks, c) ==
      (Preds(f.blocks, c) - {b}) + (if b in Preds(f.blocks, c) then {TailLabel(f)} else {})
  {
    hide *;
    SuccsAfter(f, b, ctx);
    BlocksAre(f, b, ctx);
    NewLabels(f);
    var f' := Duplicated(f, b, ctx);
    PredIs(f.blocks, c, b);
    forall l ensures l in Preds(f'.blocks, c) <==> (l == TailLabel(f) && b in Preds(f.blocks, c)) || l in Preds(f.blocks, c) - {b} {
      PredIs(f'.blocks, c, l);
      PredIs(f.blocks, c, l);
    }
  }

  lemma PhisMatchAfter(f: Func, b: Label, ctx: Reg)
    requires Bounded(f) && PhisMatchPreds(f) && b in f.blocks && ClosedLabels(f)
    ensures PhisMatchPreds(Duplicated(f, b, ctx))
  {
    var f' := Duplicated(f, b, ctx);
    forall c, i | c in f'.blocks && 0 <= i < |f'.blocks[c].phis|
      ensures f'.blocks[c].phis[i].incoming.Keys == Preds(f'.blocks, c)
    {
      SuccsAfter(f, b, ctx);
      if c in f.blocks {
        PhiLabelsAfter(f, b, ctx, c, i);
      } else if c == TailLabel(f) {
        var k := TailPhiOrigin(f, f.blocks[b].body, |f.blocks[b].body|, i);
        TailPreds(f, b, ctx);
      }
    }
  }

  lemma TailPreds(f: Func, b: Label, ctx: Reg)
    requires Bounded(f) && b in f.blocks && ClosedLabels(f)
    ensures Preds(Duplicated(f, b, ctx).blocks, TailLabel(f)) == {ThenLabel(f), ElseLabel(f)}
  {
    SuccsAfter(f, b, ctx);
  }

  ghost predicate ClosedLabels(f: Func) {
    forall c :: c in f.blocks ==> Succs(f.blocks[c].term) <= f.blocks.Keys
  }

  lemma PhiLabelsAfter(f: Func, b: Label, ctx: Reg, c: Label, i: nat)
    requires Bounded(f) && PhisMatchPreds(f) && b in f.blocks && c in f.blocks
    requires i < |Duplicated(f, b, ctx).blocks[c].phis|
    ensures Duplicated(f, b, ctx).blocks[c].phis[i].incoming.Keys == Preds(Duplicated(f, b, ctx).blocks, c)
  {
    assert c < f.nextLabel;
    assert Duplicated(f, b, ctx).blocks[c].phis[i] == SubstPhi(Replaced(f, b), Retarget(f, b, c).phis[i]);
    var p := f.blocks[c].phis[i];
    assert p.incoming.Keys == Preds(f.blocks, c);
    PredsAfter(f, b, ctx, c);
  }
}
