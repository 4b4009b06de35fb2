/** Duplicating one block keeps dominance: every path of the new function collapses to a path of the
    old one, so what was available stays available under its new name. */
module DuplicationDominance {
  import opened Ssa
  import opened SsaForm
  import opened Duplication
  import opened DuplicationSim
  import opened DuplicationForm

  /** The blocks of a path that the old function has. */
  function Collapse(f: Func, p: seq<Label>): seq<Label> {
    if p == [] then []
    else
      var rest, l := Collapse(f, p[..|p| - 1]), p[|p| - 1];
      if l < f.nextLabel then rest + [l] else rest
  }

  /** The old block that a block of the new function belongs to. */
  function Home(f: Func, b: Label, l: Label): Label {
    if l < f.nextLabel then l else b
  }

  ghost predicate Sound(f: Func, b: Label, ctx: Reg) {
    b in f.blocks && ctx < f.nextReg && Bounded(f) && UniqueDefs(f) && ClosedCfg(f)
  }

  lemma SoundParts(f: Func, b: Label, ctx: Reg)
    requires Sound(f, b, ctx)
    ensures b in f.blocks && ctx < f.nextReg && Bounded(f) && UniqueDefs(f) && ClosedCfg(f)
  {
  }

  lemma OldNameKept(f: Func, b: Label, r: Reg)
    requires b in f.blocks && r !in BodyDsts(f.blocks[b].body)
    ensures Rename(Replaced(f, b), r) == r
  {
    var body := f.blocks[b].body;
    NameMapKeys(body, PhiReg(f, 0), |body|);
    assert body[..|body|] == body;
  }

  lemma RenameIs(m: Renaming, r: Reg)
    ensures Rename(m, r) == if r in m then m[r] else r
  {
  }

  lemma PhiNames(f: Func, i: nat)
    ensures PhiReg(f, i) == PhiReg(f, 0) + 3 * i
  {
  }

  lemma TailDefines(f: Func, b: Label, ctx: Reg, r: Reg)
    requires Sound(f, b, ctx) && r in BodyDsts(f.blocks[b].body)
    ensures Rename(Replaced(f, b), r) in Defs(Duplicated(f, b, ctx).blocks[TailLabel(f)])
  {
    hide *;
    SoundParts(f, b, ctx);
    BlocksAre(f, b, ctx);
    ReplacedIs(f, b);
    var body := f.blocks[b].body;
    NameMapKeys(body, PhiReg(f, 0), |body|);
    assert body[..|body|] == body;
    var i := NameMapValue(body, PhiReg(f, 0), |body|, r);
    TailPhiExists(f, body, |body|, i);
    DefsAre(Duplicated(f, b, ctx).blocks[TailLabel(f)]);
    RenameIs(Replaced(f, b), r);
    PhiNames(f, i);
  }

  /** What a path of the new function defines, compared with the collapsed path. */
  ghost predicate Covers(f: Func, b: Label, ctx: Reg, p: seq<Label>, q: seq<Label>)
    requires b in f.blocks && IsPath(f, q) && IsPath(Duplicated(f, b, ctx), p)
  {
    var f' := Duplicated(f, b, ctx);
    && (forall r :: r in DefinedOn(f, q[..|q| - 1]) ==> Rename(Replaced(f, b), r) in DefinedOn(f', p[..|p| - 1]))
    && (p[|p| - 1] >= f.nextLabel ==> PhiDsts(f.blocks[b].phis) <= DefinedOn(f', p[..|p| - 1]))
  }

  lemma {:induction false} CollapsePath(f: Func, b: Label, ctx: Reg, p: seq<Label>)
    requires Sound(f, b, ctx) && IsPath(Duplicated(f, b, ctx), p)
    ensures IsPathTo(f, Collapse(f, p), Home(f, b, p[|p| - 1]))
    ensures Covers(f, b, ctx, p, Collapse(f, p))
  {
    var f' := Duplicated(f, b, ctx);
    if |p| == 1 {
      assert p[..0] == [];
      assert Collapse(f, p) == [f.entry];
    } else {
      var p0 := p[..|p| - 1];
      assert IsPath(f', p0);
      CollapsePath(f, b, ctx, p0);
      if p[|p| - 1] < f.nextLabel {
        CollapseOld(f, b, ctx, p, p0);
      } else {
        CollapseNew(f, b, ctx, p, p0);
      }
    }
  }

  /** The edges of the new function: into an arm or the tail, or an old edge. */
  lemma NewEdge(f: Func, b: Label, ctx: Reg, l0: Label, l: Label)
    requires Bounded(f) && ClosedCfg(f) && b in f.blocks
    requires l0 in Duplicated(f, b, ctx).blocks && l in Succs(Duplicated(f, b, ctx).blocks[l0].term)
    ensures l >= f.nextLabel ==> l0 == b || l0 == ThenLabel(f) || l0 == ElseLabel(f)
    ensures l < f.nextLabel ==>
      && (l0 == TailLabel(f) || (l0 in f.blocks && l0 != b))
      && l in f.blocks && l in Succs(f.blocks[Home(f, b, l0)].term)
  {
    SuccsAfter(f, b, ctx);
    if l0 in f.blocks {
      assert Succs(f.blocks[l0].term) <= f.blocks.Keys;
    }
    assert Succs(f.blocks[b].term) <= f.blocks.Keys;
  }

  lemma CollapseNew(f: Func, b: Label, ctx: Reg, p: seq<Label>, p0: seq<Label>)
    requires Sound(f, b, ctx) && IsPath(Duplicated(f, b, ctx), p) && |p| > 1 && p0 == p[..|p| - 1]
    requires IsPath(Duplicated(f, b, ctx), p0) && p[|p| - 1] >= f.nextLabel
    requires IsPathTo(f, Collapse(f, p0), Home(f, b, p0[|p0| - 1])) && Covers(f, b, ctx, p0, Collapse(f, p0))
    ensures IsPathTo(f, Collapse(f, p), Home(f, b, p[|p| - 1]))
    ensures Covers(f, b, ctx, p, Collapse(f, p))
  {
    var f' := Duplicated(f, b, ctx);
    var l0, l := p0[|p0| - 1], p[|p| - 1];
    NewEdge(f, b, ctx, l0, l);
    assert Collapse(f, p) == Collapse(f, p0);
    assert b < f.nextLabel;
    assert PhiDsts(f.blocks[b].phis) <= DefinedOn(f', p0) by {
      if l0 == b {
        HeadDefs(f, b, ctx);
      }
    }
  }

  /** Leaving a block of the new function that ends an old one, its definitions are made. */
  lemma EndDefines(f: Func, b: Label, ctx: Reg, l0: Label, before: set<Reg>, r: Reg)
    requires Sound(f, b, ctx)
    requires l0 == TailLabel(f) || (l0 in f.blocks && l0 != b)
    requires l0 == TailLabel(f) ==> PhiDsts(f.blocks[b].phis) <= before
    requires r in Defs(f.blocks[if l0 == TailLabel(f) then b else l0])
    ensures l0 in Duplicated(f, b, ctx).blocks
    ensures Rename(Replaced(f, b), r) in before + Defs(Duplicated(f, b, ctx).blocks[l0])
  {
    if l0 != TailLabel(f) {
      OtherDefs(f, b, ctx, l0);
      assert Defs(f.blocks[l0]) !! Defs(f.blocks[b]);
      OldNameKept(f, b, r);
    } else if r in BodyDsts(f.blocks[b].body) {
      TailDefines(f, b, ctx, r);
    } else {
      OldNameKept(f, b, r);
    }
  }

  lemma HomeIs(f: Func, b: Label, l: Label)
    ensures Home(f, b, l) == if l < f.nextLabel then l else b
  {
  }

  lemma PathEnd(f: Func, p: seq<Label>, c: Label)
    requires IsPathTo(f, p, c)
    ensures IsPath(f, p) && p != [] && p[|p| - 1] == c
  {
  }

  lemma LastEdge(f: Func, p: seq<Label>)
    requires IsPath(f, p) && |p| > 1
    ensures p[|p| - 2] in f.blocks && p[|p| - 1] in Succs(f.blocks[p[|p| - 2]].term)
  {
    hide Succs;
  }

  lemma CollapseSnoc(f: Func, p: seq<Label>)
    requires p != [] && p[|p| - 1] < f.nextLabel
    ensures Collapse(f, p) == Collapse(f, p[..|p| - 1]) + [p[|p| - 1]]
  {
  }

  lemma CoversIs(f: Func, b: Label, ctx: Reg, p: seq<Label>, q: seq<Label>)
    requires b in f.blocks && IsPath(f, q) && IsPath(Duplicated(f, b, ctx), p)
    requires p != [] && q != [] && (forall k :: 0 <= k < |q| ==> q[k] in f.blocks)
    requires forall k :: 0 <= k < |p| ==> p[k] in Duplicated(f, b, ctx).blocks
    ensures Covers(f, b, ctx, p, q) <==>
      && (forall r :: r in DefinedOn(f, q[..|q| - 1]) ==>
            Rename(Replaced(f, b), r) in DefinedOn(Duplicated(f, b, ctx), p[..|p| - 1]))
      && (p[|p| - 1] >= f.nextLabel ==> PhiDsts(f.blocks[b].phis) <= DefinedOn(Duplicated(f, b, ctx), p[..|p| - 1]))
  {
    hide Duplicated, DefinedOn, Rename, Replaced, IsPath, PhiDsts;
  }

  lemma CollapseOld(f: Func, b: Label, ctx: Reg, p: seq<Label>, p0: seq<Label>)
    requires Sound(f, b, ctx) && IsPath(Duplicated(f, b, ctx), p) && |p| > 1 && p0 == p[..|p| - 1]
    requires IsPath(Duplicated(f, b, ctx), p0) && p[|p| - 1] < f.nextLabel
    requires IsPathTo(f, Collapse(f, p0), Home(f, b, p0[|p0| - 1])) && Covers(f, b, ctx, p0, Collapse(f, p0))
    ensures IsPathTo(f, Collapse(f, p), Home(f, b, p[|p| - 1]))
    ensures Covers(f, b, ctx, p, Collapse(f, p))
  {
    hide *;
    SoundParts(f, b, ctx);
    NewLabels(f);
    var f' := Duplicated(f, b, ctx);
    var l0, l := p0[|p0| - 1], p[|p| - 1];
    var q0 := Collapse(f, p0);
    CollapseSnoc(f, p);
    PathParts(f', p);
    PathParts(f', p0);
    PathEnd(f, q0, Home(f, b, l0));
    PathParts(f, q0);
    LastEdge(f', p);
    NewEdge(f, b, ctx, l0, l);
    PathSnoc(f, q0, l);
    PathParts(f, q0 + [l]);
    HomeIs(f, b, l0);
    HomeIs(f, b, l);
    LabelBound(f, l0);
    LabelBound(f, l);
    CoversIs(f, b, ctx, p0, q0);
    CoversIs(f, b, ctx, p, q0 + [l]);
    DefinedSnoc(f', p0);
    DefinedSnoc(f, q0);
    assert q0 == (q0 + [l])[..|q0 + [l]| - 1];
    var before := DefinedOn(f', p0[..|p0| - 1]);
    forall r | r in DefinedOn(f, q0) ensures Rename(Replaced(f, b), r) in DefinedOn(f', p0) {
      if r !in DefinedOn(f, q0[..|q0| - 1]) {
        EndDefines(f, b, ctx, l0, before, r);
      }
    }
  }

  lemma LabelBound(f: Func, l: Label)
    requires Bounded(f)
    ensures l in f.blocks ==> l < f.nextLabel
  {
  }

  /** Availability survives under the new name, also on entry to the arms and the tail. */
  lemma AvailAfter(f: Func, b: Label, ctx: Reg, l: Label, r: Reg)
    requires Sound(f, b, ctx) && l in Duplicated(f, b, ctx).blocks
    requires AvailIn(f, Home(f, b, l), r)
    ensures AvailIn(Duplicated(f, b, ctx), l, Rename(Replaced(f, b), r))
  {
    var f' := Duplicated(f, b, ctx);
    if r in f.args {
      assert f.args !! Defs(f.blocks[b]);
      OldNameKept(f, b, r);
    } else {
      forall p | IsPathTo(f', p, l) ensures Rename(Replaced(f, b), r) in DefinedOn(f', p[..|p| - 1]) {
        CollapsePath(f, b, ctx, p);
      }
    }
  }

  /** The PHIs of `b` stay in `b` and reach its arms and its tail. */
  lemma HeadPhisAvail(f: Func, b: Label, ctx: Reg, l: Label, r: Reg)
    requires Sound(f, b, ctx) && l in Duplicated(f, b, ctx).blocks && l >= f.nextLabel
    requires r in PhiDsts(f.blocks[b].phis)
    ensures AvailIn(Duplicated(f, b, ctx), l, r)
  {
    var f' := Duplicated(f, b, ctx);
    forall p | IsPathTo(f', p, l) ensures r in DefinedOn(f', p[..|p| - 1]) {
      CollapsePath(f, b, ctx, p);
    }
  }

  function NewEnd(f: Func, b: Label, l: Label): Label {
    if l == b then TailLabel(f) else l
  }

  /** What can be read at the end of an old block can be read at the end of the block that now ends it. */
  lemma EndAvailAfter(f: Func, b: Label, ctx: Reg, l: Label, o: Operand)
    requires Sound(f, b, ctx) && l in f.blocks
    requires OperandAvail(f, l, Defs(f.blocks[l]), o)
    ensures NewEnd(f, b, l) in Duplicated(f, b, ctx).blocks
    ensures OperandAvail(Duplicated(f, b, ctx), NewEnd(f, b, l), Defs(Duplicated(f, b, ctx).blocks[NewEnd(f, b, l)]),
                         SubstOperand(Replaced(f, b), o))
  {
    assert l < f.nextLabel && b < f.nextLabel;
    if o.Use? {
      var r := o.reg;
      if AvailIn(f, l, r) {
        AvailAfter(f, b, ctx, NewEnd(f, b, l), r);
      } else if l != b {
        OtherDefs(f, b, ctx, l);
        assert Defs(f.blocks[l]) !! Defs(f.blocks[b]);
        OldNameKept(f, b, r);
      } else if r in BodyDsts(f.blocks[b].body) {
        TailDefines(f, b, ctx, r);
      } else {
        OldNameKept(f, b, r);
        HeadPhisAvail(f, b, ctx, TailLabel(f), r);
      }
    }
  }

  // ---------- The uses of each block ----------

  lemma OldPhiUses(f: Func, b: Label, ctx: Reg, c: Label)
    requires Sound(f, b, ctx) && PhisMatchPreds(f) && c in f.blocks && PhiUsesDominated(f, f.blocks[c])
    ensures PhiUsesDominated(Duplicated(f, b, ctx), Duplicated(f, b, ctx).blocks[c])
  {
    var f' := Duplicated(f, b, ctx);
    assert c < f.nextLabel;
    assert f'.blocks[c].phis == SubstPhis(Replaced(f, b), Retarget(f, b, c).phis);
    forall i, l' | 0 <= i < |f'.blocks[c].phis| && l' in f'.blocks[c].phis[i].incoming
      ensures l' in f'.blocks && OperandAvail(f', l', Defs(f'.blocks[l']), f'.blocks[c].phis[i].incoming[l'])
    {
      OldPhiUse(f, b, ctx, c, i, l');
    }
  }

  /** The old edge that an edge of the new function comes from. */
  lemma OldEdge(f: Func, b: Label, c: Label, i: nat, l': Label) returns (l: Label)
    requires Bounded(f) && b in f.blocks && c in f.blocks && i < |f.blocks[c].phis|
    requires f.blocks[c].phis[i].incoming.Keys == Preds(f.blocks, c)
    requires l' in Retarget(f, b, c).phis[i].incoming
    ensures l in f.blocks[c].phis[i].incoming && l in f.blocks && l' == NewEnd(f, b, l)
    ensures Retarget(f, b, c).phis[i].incoming[l'] == f.blocks[c].phis[i].incoming[l]
  {
    l := if l' == TailLabel(f) then b else l';
    LabelBound(f, l');
    hide Bounded;
    PredIs(f.blocks, c, l);
    PredIs(f.blocks, c, l');
    hide Preds;
  }

  lemma RetargetSize(f: Func, b: Label, c: Label)
    requires b in f.blocks && c in f.blocks
    ensures |Retarget(f, b, c).phis| == |f.blocks[c].phis|
  {
  }

  lemma SubstPhiIs(m: Renaming, p: Phi)
    ensures SubstPhi(m, p).incoming.Keys == p.incoming.Keys
    ensures forall l :: l in p.incoming ==> SubstPhi(m, p).incoming[l] == SubstOperand(m, p.incoming[l])
  {
  }

  lemma PhiUseIs(f: Func, b: Block, i: nat, l: Label)
    requires PhiUsesDominated(f, b) && i < |b.phis| && l in b.phis[i].incoming
    ensures l in f.blocks && OperandAvail(f, l, Defs(f.blocks[l]), b.phis[i].incoming[l])
  {
  }

  lemma MatchedPhi(f: Func, c: Label, i: nat)
    requires PhisMatchPreds(f) && c in f.blocks && i < |f.blocks[c].phis|
    ensures f.blocks[c].phis[i].incoming.Keys == Preds(f.blocks, c)
  {
  }

  lemma OldPhiUse(f: Func, b: Label, ctx: Reg, c: Label, i: nat, l': Label)
    requires Sound(f, b, ctx) && PhisMatchPreds(f) && c in f.blocks && PhiUsesDominated(f, f.blocks[c])
    requires c < f.nextLabel && i < |f.blocks[c].phis|
    requires l' in SubstPhi(Replaced(f, b), Retarget(f, b, c).phis[i]).incoming
    ensures var f' := Duplicated(f, b, ctx);
      && l' in f'.blocks
      && OperandAvail(f', l', Defs(f'.blocks[l']), SubstPhi(Replaced(f, b), Retarget(f, b, c).phis[i]).incoming[l'])
  {
    hide *;
    SoundParts(f, b, ctx);
    MatchedPhi(f, c, i);
    RetargetSize(f, b, c);
    SubstPhiIs(Replaced(f, b), Retarget(f, b, c).phis[i]);
    var l := OldEdge(f, b, c, i, l');
    PhiUseIs(f, f.blocks[c], i, l);
    EndAvailAfter(f, b, ctx, l, f.blocks[c].phis[i].incoming[l]);
  }

  lemma OldBodyUses(f: Func, b: Label, ctx: Reg, c: Label)
    requires Sound(f, b, ctx) && c in f.blocks && c != b && BodyUsesDominated(f, c, f.blocks[c])
    ensures c in Duplicated(f, b, ctx).blocks
    ensures BodyUsesDominated(Duplicated(f, b, ctx), c, Duplicated(f, b, ctx).blocks[c])
  {
    var f' := Duplicated(f, b, ctx);
    OtherDefs(f, b, ctx, c);
    var B, B' := f.blocks[c], f'.blocks[c];
    SameDsts(B, B');
    assert |B'.body| == |B.body| && forall i :: 0 <= i < |B.body| ==> B'.body[i] == SubstInstr(Replaced(f, b), B.body[i]);
    hide Duplicated, Sound, OperandAvail, Defs, DefsBefore, Replaced, Retarget, SubstBlock, SubstBody;
    forall i, k | 0 <= i < |B'.body| && 0 <= k < |B'.body[i].args|
      ensures OperandAvail(f', c, DefsBefore(B', i), B'.body[i].args[k])
    {
      var o := B.body[i].args[k];
      assert OperandAvail(f, c, DefsBefore(B, i), o);
      BeforeIsDef(B, i);
      OldUse(f, b, ctx, c, DefsBefore(B, i), o);
    }
  }

  lemma BeforeIsDef(b: Block, i: nat)
    requires i <= |b.body|
    ensures DefsBefore(b, i) <= Defs(b)
  {
    BodyDstsPrefix(b.body, i);
  }

  lemma SubstUses(m: Renaming, t: Term)
    ensures |TermUses(SubstTerm(m, t))| == |TermUses(t)|
    ensures forall k :: 0 <= k < |TermUses(t)| ==> TermUses(SubstTerm(m, t))[k] == SubstOperand(m, TermUses(t)[k])
  {
  }

  lemma OldTermUses(f: Func, b: Label, ctx: Reg, c: Label)
    requires Sound(f, b, ctx) && c in f.blocks && c != b && TermUsesDominated(f, c, f.blocks[c])
    ensures c in Duplicated(f, b, ctx).blocks
    ensures TermUsesDominated(Duplicated(f, b, ctx), c, Duplicated(f, b, ctx).blocks[c])
  {
    var f' := Duplicated(f, b, ctx);
    OtherDefs(f, b, ctx, c);
    var B, B' := f.blocks[c], f'.blocks[c];
    SubstUses(Replaced(f, b), B.term);
    assert B'.term == SubstTerm(Replaced(f, b), B.term);
    hide Duplicated, Sound, OperandAvail, Defs, Replaced, Retarget, SubstBlock, TermUses, SubstTerm;
    forall k | 0 <= k < |TermUses(B'.term)| ensures OperandAvail(f', c, Defs(B'), TermUses(B'.term)[k]) {
      EndAvailAfter(f, b, ctx, c, TermUses(B.term)[k]);
    }
  }

  lemma UsesAre(f: Func, c: Label)
    requires c in f.blocks
    ensures UsesDominated(f, c) <==>
      BodyUsesDominated(f, c, f.blocks[c]) && TermUsesDominated(f, c, f.blocks[c]) && PhiUsesDominated(f, f.blocks[c])
  {
  }

  lemma OldBlockUses(f: Func, b: Label, ctx: Reg, c: Label)
    requires Sound(f, b, ctx) && PhisMatchPreds(f) && c in f.blocks && c != b && UsesDominated(f, c)
    ensures c in Duplicated(f, b, ctx).blocks && UsesDominated(Duplicated(f, b, ctx), c)
  {
    hide *;
    SoundParts(f, b, ctx);
    OtherDefs(f, b, ctx, c);
    UsesAre(f, c);
    UsesAre(Duplicated(f, b, ctx), c);
    OldPhiUses(f, b, ctx, c);
    OldBodyUses(f, b, ctx, c);
    OldTermUses(f, b, ctx, c);
  }

  lemma OldUse(f: Func, b: Label, ctx: Reg, c: Label, local: set<Reg>, o: Operand)
    requires Sound(f, b, ctx) && c in f.blocks && c != b && local <= Defs(f.blocks[c])
    requires OperandAvail(f, c, local, o)
    ensures OperandAvail(Duplicated(f, b, ctx), c, local, SubstOperand(Replaced(f, b), o))
  {
    LabelBound(f, c);
    if o.Use? {
      if o.reg in local {
        assert Defs(f.blocks[c]) !! Defs(f.blocks[b]);
        OldNameKept(f, b, o.reg);
      } else {
        assert c in Duplicated(f, b, ctx).blocks;
        AvailAfter(f, b, ctx, c, o.reg);
      }
    }
  }

  /** The context value is available where the condition is computed, and the condition where it is tested. */
  lemma HeadCodeUses(f': Func, b: Label, B': Block, m: Renaming, f: Func, ctx: Reg)
    requires B'.body == SubstBody(m, [CondInstr(f, ctx)]) && B'.term == Branch(Use(CondReg(f)), ThenLabel(f), ElseLabel(f))
    requires AvailIn(f', b, Rename(m, ctx)) && BodyDsts(B'.body) == {CondReg(f)}
    ensures BodyUsesDominated(f', b, B') && TermUsesDominated(f', b, B')
  {
    hide AvailIn, Rename, BodyDsts;
    assert B'.body[0].args == [Use(Rename(m, ctx))];
  }

  /** The condition reads the renamed context value, which is available on entry to `b`. */
  lemma HeadUses(f: Func, b: Label, ctx: Reg)
    requires Sound(f, b, ctx) && PhisMatchPreds(f) && UsesDominated(f, b) && AvailIn(f, b, ctx)
    ensures UsesDominated(Duplicated(f, b, ctx), b)
  {
    hide *;
    SoundParts(f, b, ctx);
    BlocksAre(f, b, ctx);
    UsesAre(f, b);
    UsesAre(Duplicated(f, b, ctx), b);
    HeadDefs(f, b, ctx);
    OldPhiUses(f, b, ctx, b);
    HomeIs(f, b, b);
    AvailAfter(f, b, ctx, b, ctx);
    HeadCodeUses(Duplicated(f, b, ctx), b, Duplicated(f, b, ctx).blocks[b], Replaced(f, b), f, ctx);
  }

  lemma CloneLocal(body: seq<Instr>, base: nat, outer: Renaming, i: nat, r: Reg)
    requires i <= |body| && r in BodyDsts(body[..i])
    ensures Rename(outer + NameMap(body, base, i), r) in BodyDsts(ArmCode(body, base, outer, i))
  {
    NameMapKeys(body, base, i);
    var k := NameMapValue(body, base, i, r);
    BodyDstsAt(ArmCode(body, base, outer, i), k);
  }

  lemma CloneOuter(body: seq<Instr>, base: nat, outer: Renaming, i: nat, r: Reg)
    requires i <= |body| && r !in BodyDsts(body[..i])
    ensures Rename(outer + NameMap(body, base, i), r) == Rename(outer, r)
  {
    NameMapKeys(body, base, i);
  }

  lemma ArmEntry(f: Func, b: Label, ctx: Reg, arm: Label, r: Reg)
    requires Sound(f, b, ctx) && arm in Duplicated(f, b, ctx).blocks && arm >= f.nextLabel
    requires r in PhiDsts(f.blocks[b].phis) || AvailIn(f, b, r)
    ensures AvailIn(Duplicated(f, b, ctx), arm, Rename(Replaced(f, b), r))
  {
    if AvailIn(f, b, r) {
      AvailAfter(f, b, ctx, arm, r);
    } else {
      assert UniqueInBlock(f.blocks[b]);
      OldNameKept(f, b, r);
      HeadPhisAvail(f, b, ctx, arm, r);
    }
  }

  lemma CloneUses(f: Func, b: Label, ctx: Reg, base: nat, arm: Label, i: nat, o: Operand)
    requires Sound(f, b, ctx) && IsArm(f, base, arm) && i < |f.blocks[b].body|
    requires OperandAvail(f, b, DefsBefore(f.blocks[b], i), o)
    ensures var body := f.blocks[b].body;
      OperandAvail(Duplicated(f, b, ctx), arm, BodyDsts(ArmCode(body, base, Replaced(f, b), i)),
                   SubstOperand(Replaced(f, b) + NameMap(body, base, i), o))
  {
    var body := f.blocks[b].body;
    if o.Use? {
      if o.reg in BodyDsts(body[..i]) {
        CloneLocal(body, base, Replaced(f, b), i, o.reg);
      } else {
        CloneOuter(body, base, Replaced(f, b), i, o.reg);
        ArmEntry(f, b, ctx, arm, o.reg);
      }
    }
  }

  lemma ArmUses(f: Func, b: Label, ctx: Reg, base: nat, arm: Label)
    requires Sound(f, b, ctx) && IsArm(f, base, arm) && UsesDominated(f, b)
    ensures UsesDominated(Duplicated(f, b, ctx), arm)
  {
    var f' := Duplicated(f, b, ctx);
    var body, m := f.blocks[b].body, Replaced(f, b);
    var B' := f'.blocks[arm];
    assert B' == ArmBlock(f, b, base, |body|);
    forall i, k | 0 <= i < |B'.body| && 0 <= k < |B'.body[i].args|
      ensures OperandAvail(f', arm, DefsBefore(B', i), B'.body[i].args[k])
    {
      assert B'.body[i] == Clone(body, base, m, i);
      assert B'.body[..i] == ArmCode(body, base, m, i);
      CloneUses(f, b, ctx, base, arm, i, body[i].args[k]);
    }
  }

  lemma MergeUse(f: Func, b: Label, ctx: Reg, k: nat, l: Label)
    requires b in f.blocks && k < |f.blocks[b].body| && f.blocks[b].body[k].dst.Some?
    requires l in MergePhi(f, f.blocks[b].body[k], k).incoming
    ensures l in Duplicated(f, b, ctx).blocks
    ensures MergePhi(f, f.blocks[b].body[k], k).incoming[l].reg in Defs(Duplicated(f, b, ctx).blocks[l])
  {
    var body := f.blocks[b].body;
    var base := if l == ThenLabel(f) then ThenReg(f, 0) else ElseReg(f, 0);
    assert Duplicated(f, b, ctx).blocks[l] == ArmBlock(f, b, base, |body|);
    BodyDstsAt(ArmBlock(f, b, base, |body|).body, k);
  }

  lemma MergeUses(f: Func, b: Label, ctx: Reg)
    requires b in f.blocks
    ensures PhiUsesDominated(Duplicated(f, b, ctx), Duplicated(f, b, ctx).blocks[TailLabel(f)])
  {
    var f' := Duplicated(f, b, ctx);
    var body, phis := f.blocks[b].body, f'.blocks[TailLabel(f)].phis;
    forall i, l | 0 <= i < |phis| && l in phis[i].incoming
      ensures l in f'.blocks && OperandAvail(f', l, Defs(f'.blocks[l]), phis[i].incoming[l])
    {
      var k := TailPhiOrigin(f, body, |body|, i);
      assert phis[i] == MergePhi(f, body[k], k);
      MergeUse(f, b, ctx, k, l);
    }
  }

  lemma TailUses(f: Func, b: Label, ctx: Reg)
    requires Sound(f, b, ctx) && UsesDominated(f, b)
    ensures UsesDominated(Duplicated(f, b, ctx), TailLabel(f))
  {
    var f' := Duplicated(f, b, ctx);
    var B, B' := f.blocks[b], f'.blocks[TailLabel(f)];
    MergeUses(f, b, ctx);
    forall k | 0 <= k < |TermUses(B'.term)| ensures OperandAvail(f', TailLabel(f), Defs(B'), TermUses(B'.term)[k]) {
      assert TermUses(B'.term)[k] == SubstOperand(Replaced(f, b), TermUses(B.term)[k]);
      EndAvailAfter(f, b, ctx, b, TermUses(B.term)[k]);
    }
    assert B'.body == [];
  }

  lemma UsesAfter(f: Func, b: Label, ctx: Reg, c: Label)
    requires Sound(f, b, ctx) && PhisMatchPreds(f) && AvailIn(f, b, ctx)
    requires c in Duplicated(f, b, ctx).blocks && UsesDominated(f, b)
    requires c in f.blocks ==> UsesDominated(f, c)
    ensures UsesDominated(Duplicated(f, b, ctx), c)
  {
    if c == ThenLabel(f) {
      ArmUses(f, b, ctx, ThenReg(f, 0), c);
    } else if c == ElseLabel(f) {
      ArmUses(f, b, ctx, ElseReg(f, 0), c);
    } else if c == TailLabel(f) {
      TailUses(f, b, ctx);
    } else if c == b {
      HeadUses(f, b, ctx);
    } else {
      OldBlockUses(f, b, ctx, c);
    }
  }

  /** Duplicating a block with a context register that is available there keeps the function
      well-formed. */
  lemma WellFormedAfter(f: Func, b: Label, ctx: Reg)
    requires WellFormed(f) && b in f.blocks && ctx < f.nextReg && AvailIn(f, b, ctx)
    ensures WellFormed(Duplicated(f, b, ctx))
  {
    BoundedAfter(f, b, ctx);
    UniqueAfter(f, b, ctx);
    ClosedAfter(f, b, ctx);
    PhisMatchAfter(f, b, ctx);
    forall c | c in Duplicated(f, b, ctx).blocks ensures UsesDominated(Duplicated(f, b, ctx), c) {
      UsesAfter(f, b, ctx, c);
    }
  }
}
