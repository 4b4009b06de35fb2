/** What the duplicated function looks like: which blocks are split, into what, and which are kept. */
module DuplicationLooks {
  import opened Wrappers
  import opened Ssa
  import opened SsaForm
  import opened Duplication
  import DuplicationDominance
  import opened DuplicationForm
  import opened DuplicationRuns

  /** The same instructions up to the names of results and operands. */
  ghost predicate SameCode(x: seq<Instr>, y: seq<Instr>) {
    && |x| == |y|
    && forall i :: 0 <= i < |x| ==>
         x[i].op == y[i].op && x[i].ty == y[i].ty && |x[i].args| == |y[i].args| && (x[i].dst.Some? <==> y[i].dst.Some?)
  }

  /** Block `c` of `f` has become a test whether some register is zero, two copies of its body, and a
      tail that goes on where `c` went. */
  ghost predicate SplitInto(f: Func, g: Func, c: Label, l1: Label, l2: Label, l3: Label)
    requires c in f.blocks
  {
    && c in g.blocks && l1 in g.blocks && l2 in g.blocks && l3 in g.blocks
    && f.nextLabel <= l1 && f.nextLabel <= l2 && f.nextLabel <= l3 && l1 != l2 && l1 != l3 && l2 != l3
    && Tests(g.blocks[c], l1, l2)
    && Copies(g.blocks[l1], f.blocks[c], l3) && Copies(g.blocks[l2], f.blocks[c], l3)
    && g.blocks[l3].body == [] && Succs(g.blocks[l3].term) == Succs(f.blocks[c].term)
  }

  ghost predicate Tests(b: Block, l1: Label, l2: Label) {
    && |b.body| == 1 && b.body[0].op == IsNull && b.body[0].ty == IntTy(1) && b.body[0].dst.Some?
    && |b.body[0].args| == 1 && b.body[0].args[0].Use?
    && b.term == Switch(Use(b.body[0].dst.value), map[0 := l2], l1)
  }

  ghost predicate Copies(b: Block, B: Block, l3: Label) {
    b.phis == [] && SameCode(b.body, B.body) && b.term == Jump(l3)
  }

  ghost predicate IsSplit(f: Func, g: Func, c: Label)
    requires c in f.blocks
  {
    exists l1, l2, l3 :: SplitInto(f, g, c, l1, l2, l3)
  }

  ghost predicate IsKept(f: Func, g: Func, c: Label)
    requires c in f.blocks
  {
    c in g.blocks && SameCode(g.blocks[c].body, f.blocks[c].body) && Succs(g.blocks[c].term) == Succs(f.blocks[c].term)
  }

  // ---------- One duplication ----------

  lemma SubstCode(m: Renaming, x: seq<Instr>, y: seq<Instr>)
    requires SameCode(x, y)
    ensures SameCode(SubstBody(m, x), y)
  {
  }

  lemma ArmCodeSame(body: seq<Instr>, base: nat, m: Renaming)
    ensures SameCode(ArmCode(body, base, m, |body|), body)
  {
  }

  /** The block that is duplicated is split. */
  lemma DuplicatedSplits(f: Func, g: Func, b: Label, ctx: Reg)
    requires Bounded(g) && b in f.blocks && IsKept(f, g, b) && f.nextLabel <= g.nextLabel
    ensures b in g.blocks && IsSplit(f, Duplicated(g, b, ctx), b)
  {
    hide *;
    KeptParts(f, g, b);
    BlocksAre(g, b, ctx);
    NewLabels(g);
    var h, body, m := Duplicated(g, b, ctx), g.blocks[b].body, Replaced(g, b);
    HeadTests(g, ctx, m, h.blocks[b]);
    ArmIs(g, b, ThenReg(g, 0));
    ArmIs(g, b, ElseReg(g, 0));
    ArmCodeSame(body, ThenReg(g, 0), m);
    ArmCodeSame(body, ElseReg(g, 0), m);
    SameTrans(ArmCode(body, ThenReg(g, 0), m, |body|), body, f.blocks[b].body);
    SameTrans(ArmCode(body, ElseReg(g, 0), m, |body|), body, f.blocks[b].body);
    MakeCopies(h.blocks[ThenLabel(g)], f.blocks[b], TailLabel(g));
    MakeCopies(h.blocks[ElseLabel(g)], f.blocks[b], TailLabel(g));
    SubstTermSuccs(m, g.blocks[b].term);
    NothingSubst(m);
    MakeSplit(f, h, b, ThenLabel(g), ElseLabel(g), TailLabel(g));
  }

  lemma KeptParts(f: Func, g: Func, c: Label)
    requires c in f.blocks && IsKept(f, g, c)
    ensures c in g.blocks && SameCode(g.blocks[c].body, f.blocks[c].body) && Succs(g.blocks[c].term) == Succs(f.blocks[c].term)
  {
  }

  lemma HeadTests(g: Func, ctx: Reg, m: Renaming, b: Block)
    requires b.body == SubstBody(m, [CondInstr(g, ctx)]) && b.term == Branch(Use(CondReg(g)), ThenLabel(g), ElseLabel(g))
    ensures Tests(b, ThenLabel(g), ElseLabel(g))
  {
  }

  lemma ArmIs(g: Func, b: Label, base: nat)
    requires b in g.blocks
    ensures var body := g.blocks[b].body;
      ArmBlock(g, b, base, |body|) == Block([], ArmCode(body, base, Replaced(g, b), |body|), Jump(TailLabel(g)))
  {
    hide ArmCode, PhiMap;
  }

  lemma SameTrans(x: seq<Instr>, y: seq<Instr>, z: seq<Instr>)
    requires SameCode(x, y) && SameCode(y, z)
    ensures SameCode(x, z)
  {
  }

  lemma MakeCopies(b: Block, B: Block, l3: Label)
    requires b.phis == [] && SameCode(b.body, B.body) && b.term == Jump(l3)
    ensures Copies(b, B, l3)
  {
  }

  lemma NothingSubst(m: Renaming)
    ensures SubstBody(m, []) == []
  {
  }

  lemma MakeSplit(f: Func, g: Func, c: Label, l1: Label, l2: Label, l3: Label)
    requires c in f.blocks && c in g.blocks && l1 in g.blocks && l2 in g.blocks && l3 in g.blocks
    requires f.nextLabel <= l1 && f.nextLabel <= l2 && f.nextLabel <= l3 && l1 != l2 && l1 != l3 && l2 != l3
    requires Tests(g.blocks[c], l1, l2)
    requires Copies(g.blocks[l1], f.blocks[c], l3) && Copies(g.blocks[l2], f.blocks[c], l3)
    requires g.blocks[l3].body == [] && Succs(g.blocks[l3].term) == Succs(f.blocks[c].term)
    ensures IsSplit(f, g, c)
  {
    hide Tests, Copies;
    assert SplitInto(f, g, c, l1, l2, l3);
  }

  // ---------- What a further duplication keeps ----------

  /** Blocks that are not duplicated keep their code. */
  lemma OtherCode(g: Func, b: Label, ctx: Reg, d: Label)
    requires Bounded(g) && b in g.blocks && d in g.blocks && d != b
    ensures var h, m := Duplicated(g, b, ctx), Replaced(g, b);
      && d in h.blocks && h.blocks[d].body == SubstBody(m, g.blocks[d].body) && h.blocks[d].term == SubstTerm(m, g.blocks[d].term)
      && |h.blocks[d].phis| == |g.blocks[d].phis|
  {
    BlocksAre(g, b, ctx);
    hide Duplicated, Replaced, SubstBody, SubstTerm, Bounded;
  }

  lemma KeptStill(f: Func, g: Func, b: Label, ctx: Reg, c: Label)
    requires Bounded(g) && b in g.blocks && c in f.blocks && c != b && IsKept(f, g, c)
    ensures IsKept(f, Duplicated(g, b, ctx), c)
  {
    hide *;
    KeptParts(f, g, c);
    OtherCode(g, b, ctx, c);
    SubstCode(Replaced(g, b), g.blocks[c].body, f.blocks[c].body);
    SubstTermSuccs(Replaced(g, b), g.blocks[c].term);
    MakeKept(f, Duplicated(g, b, ctx), c);
  }

  lemma MakeKept(f: Func, g: Func, c: Label)
    requires c in f.blocks && c in g.blocks && SameCode(g.blocks[c].body, f.blocks[c].body)
    requires Succs(g.blocks[c].term) == Succs(f.blocks[c].term)
    ensures IsKept(f, g, c)
  {
  }

  lemma SplitStill(f: Func, g: Func, b: Label, ctx: Reg, c: Label)
    requires WellFormed(g) && b in f.blocks && b in g.blocks && c in f.blocks && c != b && b < f.nextLabel && IsSplit(f, g, c)
    ensures IsSplit(f, Duplicated(g, b, ctx), c)
  {
    hide *;
    var l1, l2, l3 := SplitLabels(f, g, c);
    SplitParts(f, g, c, l1, l2, l3);
    WellBounded(g);
    OtherCode(g, b, ctx, c);
    OtherCode(g, b, ctx, l1);
    OtherCode(g, b, ctx, l2);
    OtherCode(g, b, ctx, l3);
    var h, m := Duplicated(g, b, ctx), Replaced(g, b);
    TestsStill(g, b, ctx, c, l1, l2);
    CopiesStill(m, g.blocks[l1], h.blocks[l1], f.blocks[c], l3);
    CopiesStill(m, g.blocks[l2], h.blocks[l2], f.blocks[c], l3);
    NothingSubst(m);
    SubstTermSuccs(m, g.blocks[l3].term);
    MakeSplit(f, h, c, l1, l2, l3);
  }

  lemma WellBounded(g: Func)
    requires WellFormed(g)
    ensures Bounded(g) && UniqueDefs(g)
  {
  }

  lemma SplitLabels(f: Func, g: Func, c: Label) returns (l1: Label, l2: Label, l3: Label)
    requires c in f.blocks && IsSplit(f, g, c)
    ensures SplitInto(f, g, c, l1, l2, l3)
  {
    l1, l2, l3 :| SplitInto(f, g, c, l1, l2, l3);
  }

  lemma SplitParts(f: Func, g: Func, c: Label, l1: Label, l2: Label, l3: Label)
    requires c in f.blocks && SplitInto(f, g, c, l1, l2, l3)
    ensures c in g.blocks && l1 in g.blocks && l2 in g.blocks && l3 in g.blocks
    ensures f.nextLabel <= l1 && f.nextLabel <= l2 && f.nextLabel <= l3 && l1 != l2 && l1 != l3 && l2 != l3
    ensures Tests(g.blocks[c], l1, l2)
    ensures Copies(g.blocks[l1], f.blocks[c], l3) && Copies(g.blocks[l2], f.blocks[c], l3)
    ensures g.blocks[l3].body == [] && Succs(g.blocks[l3].term) == Succs(f.blocks[c].term)
  {
    hide Tests, Copies;
  }

  lemma CopiesStill(m: Renaming, b: Block, b': Block, B: Block, l3: Label)
    requires Copies(b, B, l3) && |b'.phis| == |b.phis| && b'.body == SubstBody(m, b.body) && b'.term == SubstTerm(m, b.term)
    ensures Copies(b', B, l3)
  {
    SubstCode(m, b.body, B.body);
    hide SubstBody, SameCode;
  }

  /** The register that is tested is defined in its block, so it keeps its name. */
  lemma TestsStill(g: Func, b: Label, ctx: Reg, c: Label, l1: Label, l2: Label)
    requires Bounded(g) && UniqueDefs(g) && b in g.blocks && c in g.blocks && c != b && Tests(g.blocks[c], l1, l2)
    ensures c in Duplicated(g, b, ctx).blocks && Tests(Duplicated(g, b, ctx).blocks[c], l1, l2)
  {
    OtherCode(g, b, ctx, c);
    var m, r := Replaced(g, b), g.blocks[c].body[0].dst.value;
    BodyDstsAt(g.blocks[c].body, 0);
    assert r in Defs(g.blocks[c]);
    assert Defs(g.blocks[c]) !! Defs(g.blocks[b]);
    DuplicationDominance.OldNameKept(g, b, r);
    hide Duplicated, Replaced, UniqueDefs, Bounded;
  }

  // ---------- All duplications ----------

  lemma KeptItself(f: Func)
    ensures forall c :: c in f.blocks ==> IsKept(f, f, c)
  {
  }

  /** After all duplications every target is split, and every other block keeps its code. */
  lemma {:induction false} AllSplit(f: Func, targets: seq<Target>)
    requires WellFormed(f) && Selected(f, targets)
    ensures TargetsExist(f, targets)
    ensures var g := DuplicateAll(f, targets).f;
      && f.nextLabel <= g.nextLabel == f.nextLabel + 3 * |targets|
      && forall c :: c in f.blocks ==> if c in Blocks(targets) then IsSplit(f, g, c) else IsKept(f, g, c)
    decreases |targets|
  {
    hide *;
    SelectedExist(f, targets);
    if targets == [] {
      NoTargets(f, targets);
      KeptItself(f);
    } else {
      var n := |targets| - 1;
      SelectedPrefix(f, targets);
      AllSplit(f, targets[..n]);
      LastTarget(f, targets);
      DuplicateAllThreaded(f, targets[..n]);
      var r, b := DuplicateAll(f, targets[..n]), targets[n].block;
      ThreadedForm(f, Blocks(targets[..n]), r);
      WellBounded(r.f);
      WellBounded(f);
      LabelBelow(f, b);
      BlocksSnoc(targets);
      var ctx := Rename(r.remap, targets[n].ctx);
      NextLabelIs(r.f, b, ctx);
      forall c | c in f.blocks
        ensures if c in Blocks(targets) then IsSplit(f, Duplicated(r.f, b, ctx), c) else IsKept(f, Duplicated(r.f, b, ctx), c)
      {
        if c == b {
          DuplicatedSplits(f, r.f, b, ctx);
        } else if c in Blocks(targets[..n]) {
          SplitStill(f, r.f, b, ctx, c);
        } else {
          KeptStill(f, r.f, b, ctx, c);
        }
      }
    }
  }

  lemma NoTargets(f: Func, targets: seq<Target>)
    requires targets == []
    ensures DuplicateAll(f, targets) == Result(f, map[]) && Blocks(targets) == {}
  {
  }

  lemma LastTarget(f: Func, targets: seq<Target>)
    requires targets != [] && TargetsExist(f, targets)
    ensures var n := |targets| - 1;
      && TargetsExist(f, targets[..n]) && targets[n].block in f.blocks && targets[n].block in DuplicateAll(f, targets[..n]).f.blocks
      && var r := DuplicateAll(f, targets[..n]);
         DuplicateAll(f, targets).f == Duplicated(r.f, targets[n].block, Rename(r.remap, targets[n].ctx))
  {
    hide Duplicated, Rename;
  }

  lemma ThreadedForm(f: Func, dup: set<Label>, r: Result)
    requires Threaded(f, dup, r)
    ensures WellFormed(r.f)
  {
  }

  lemma LabelBelow(f: Func, c: Label)
    requires Bounded(f) && c in f.blocks
    ensures c < f.nextLabel
  {
  }

  lemma NextLabelIs(g: Func, b: Label, ctx: Reg)
    requires b in g.blocks
    ensures Duplicated(g, b, ctx).nextLabel == g.nextLabel + 3
  {
  }
}
