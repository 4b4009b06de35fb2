/** Rewriting the bodies of blocks: what the new code has to keep so that a function stays well-formed. */
module BodyForm {
  import opened Ssa
  import opened SsaForm

  /** No register has two definitions. */
  ghost predicate UniqueBody(body: seq<Instr>) {
    forall i, j :: 0 <= i < j < |body| && body[i].dst.Some? ==> body[i].dst != body[j].dst
  }

  /** An operand that instruction `i` of the old body may have, all of whose earlier definitions are in
      `before`. */
  ghost predicate OldUse(body: seq<Instr>, i: nat, k: nat, o: Operand, before: set<Reg>) {
    i < |body| && k < |body[i].args| && body[i].args[k] == o && BodyDsts(body[..i]) <= before
  }

  /** What is defined in the block before, or was used in the old body with no more than that defined. */
  ghost predicate GoodUse(body: seq<Instr>, o: Operand, before: set<Reg>) {
    o.Const? || o.reg in before || exists i: nat, k: nat :: OldUse(body, i, k, o, before)
  }

  ghost predicate GoodUses(body: seq<Instr>, code: seq<Instr>) {
    forall i, k :: 0 <= i < |code| && 0 <= k < |code[i].args| ==> GoodUse(body, code[i].args[k], BodyDsts(code[..i]))
  }

  /** `code` defines what `body` does and fresh registers from `n` on, each once, and reads nothing that
      `body` could not read. */
  ghost predicate ExtendsBody(body: seq<Instr>, code: seq<Instr>, n: nat) {
    && UniqueBody(code) && GoodUses(body, code) && BodyDsts(body) <= BodyDsts(code)
    && forall r :: r in BodyDsts(code) ==> r in BodyDsts(body) || r >= n
  }

  lemma DstsAppend(x: seq<Instr>, y: seq<Instr>)
    ensures BodyDsts(x + y) == BodyDsts(x) + BodyDsts(y)
  {
    forall r | r in BodyDsts(x) + BodyDsts(y) ensures r in BodyDsts(x + y) {
      if r in BodyDsts(x) {
        var i :| 0 <= i < |x| && x[i].dst.Some? && x[i].dst.value == r;
        assert (x + y)[i] == x[i];
      } else {
        var i :| 0 <= i < |y| && y[i].dst.Some? && y[i].dst.value == r;
        assert (x + y)[|x| + i] == y[i];
      }
    }
    forall r | r in BodyDsts(x + y) ensures r in BodyDsts(x) + BodyDsts(y) {
      var i :| 0 <= i < |x + y| && (x + y)[i].dst.Some? && (x + y)[i].dst.value == r;
      assert (x + y)[i] == if i < |x| then x[i] else y[i - |x|];
    }
  }

  lemma UniqueAppend(x: seq<Instr>, y: seq<Instr>)
    requires UniqueBody(x) && UniqueBody(y) && BodyDsts(x) !! BodyDsts(y)
    ensures UniqueBody(x + y)
  {
    var z := x + y;
    forall i, j | 0 <= i < j < |z| && z[i].dst.Some? ensures z[i].dst != z[j].dst {
      if i < |x| <= j && z[j].dst.Some? {
        assert z[i].dst.value in BodyDsts(x) && z[j].dst.value in BodyDsts(y);
      }
    }
  }

  lemma UsesAppend(body: seq<Instr>, x: seq<Instr>, y: seq<Instr>)
    requires GoodUses(body, x)
    requires forall i, k :: 0 <= i < |y| && 0 <= k < |y[i].args| ==> GoodUse(body, y[i].args[k], BodyDsts(x + y[..i]))
    ensures GoodUses(body, x + y)
  {
    hide GoodUse, BodyDsts;
    var z := x + y;
    forall i, k | 0 <= i < |z| && 0 <= k < |z[i].args| ensures GoodUse(body, z[i].args[k], BodyDsts(z[..i])) {
      if i < |x| {
        assert z[..i] == x[..i];
      } else {
        assert z[i] == y[i - |x|] && z[..i] == x + y[..i - |x|];
      }
    }
  }

  lemma UseMore(body: seq<Instr>, body': seq<Instr>, o: Operand, before: set<Reg>)
    requires GoodUse(body, o, before) && |body| <= |body'| && body'[..|body|] == body
    ensures GoodUse(body', o, before)
  {
    if i: nat, k: nat :| OldUse(body, i, k, o, before) {
      assert body'[i] == body'[..|body|][i] && body'[..i] == body[..i];
      assert OldUse(body', i, k, o, before);
    }
  }

  lemma UsesMore(body: seq<Instr>, body': seq<Instr>, code: seq<Instr>)
    requires GoodUses(body, code) && |body| <= |body'| && body'[..|body|] == body
    ensures GoodUses(body', code)
  {
    hide GoodUse, BodyDsts;
    forall i, k | 0 <= i < |code| && 0 <= k < |code[i].args| ensures GoodUse(body', code[i].args[k], BodyDsts(code[..i])) {
      UseMore(body, body', code[i].args[k], BodyDsts(code[..i]));
    }
  }

  /** One more instruction of the old body, with what has become of it. */
  lemma ExtendsNext(body: seq<Instr>, i: Instr, code: seq<Instr>, more: seq<Instr>, n: nat)
    requires ExtendsBody(body, code, n) && UniqueBody(more) && BodyDsts(code) !! BodyDsts(more)
    requires BodyDsts([i]) <= BodyDsts(more) && forall r :: r in BodyDsts(more) ==> r in BodyDsts([i]) || r >= n
    requires forall m, k :: 0 <= m < |more| && 0 <= k < |more[m].args| ==>
      more[m].args[k].Const? || more[m].args[k] in i.args || more[m].args[k].reg in BodyDsts(more[..m])
    ensures ExtendsBody(body + [i], code + more, n)
  {
    DstsAppend(body, [i]);
    DstsAppend(code, more);
    UniqueAppend(code, more);
    UsesMore(body, body + [i], code);
    forall m, k | 0 <= m < |more| && 0 <= k < |more[m].args|
      ensures GoodUse(body + [i], more[m].args[k], BodyDsts(code + more[..m]))
    {
      DstsAppend(code, more[..m]);
      hide BodyDsts, UniqueBody;
      var o := more[m].args[k];
      if o in i.args {
        var q :| 0 <= q < |i.args| && i.args[q] == o;
        assert (body + [i])[..|body|] == body;
        assert OldUse(body + [i], |body|, q, o, BodyDsts(code + more[..m]));
      }
    }
    UsesAppend(body + [i], code, more);
  }

  lemma ExtendsNothing(n: nat)
    ensures ExtendsBody([], [], n)
  {
  }

  // ---------- The function ----------

  /** `g` is `f` with another body in block `c`. */
  ghost predicate NewBody(f: Func, g: Func, c: Label) {
    && c in f.blocks && c in g.blocks
    && g == Func(f.args, f.entry, f.blocks[c := f.blocks[c].(body := g.blocks[c].body)], g.nextReg, f.nextLabel)
  }

  lemma NewBodyParts(f: Func, g: Func, c: Label)
    requires NewBody(f, g, c)
    ensures g.args == f.args && g.entry == f.entry && g.blocks.Keys == f.blocks.Keys && c in f.blocks
    ensures forall d :: d in f.blocks ==> g.blocks[d].phis == f.blocks[d].phis && g.blocks[d].term == f.blocks[d].term
    ensures forall d :: d in f.blocks && d != c ==> g.blocks[d] == f.blocks[d]
    ensures forall d :: Preds(g.blocks, d) == Preds(f.blocks, d)
    ensures forall p, d :: IsPathTo(g, p, d) <==> IsPathTo(f, p, d)
  {
    assert forall d :: d in f.blocks ==> g.blocks[d].phis == f.blocks[d].phis && g.blocks[d].term == f.blocks[d].term;
  }

  lemma BlockDefs(f: Func, g: Func, c: Label, d: Label)
    requires NewBody(f, g, c) && ExtendsBody(f.blocks[c].body, g.blocks[c].body, f.nextReg) && d in f.blocks
    ensures d in g.blocks && Defs(f.blocks[d]) <= Defs(g.blocks[d])
    ensures forall r :: r in Defs(g.blocks[d]) ==> r in Defs(f.blocks[d]) || (d == c && r >= f.nextReg)
  {
    hide BodyDsts, UniqueBody, GoodUses;
  }

  lemma {:induction false} DefinedMore(f: Func, g: Func, c: Label, p: seq<Label>)
    requires NewBody(f, g, c) && ExtendsBody(f.blocks[c].body, g.blocks[c].body, f.nextReg)
    requires forall k :: 0 <= k < |p| ==> p[k] in f.blocks
    ensures forall k :: 0 <= k < |p| ==> p[k] in g.blocks
    ensures DefinedOn(f, p) <= DefinedOn(g, p)
    decreases |p|
  {
    NewBodyParts(f, g, c);
    hide ExtendsBody, Defs, NewBody;
    if p != [] {
      DefinedMore(f, g, c, p[..|p| - 1]);
      BlockDefs(f, g, c, p[|p| - 1]);
    }
  }

  lemma AvailMore(f: Func, g: Func, c: Label, d: Label, r: Reg)
    requires NewBody(f, g, c) && ExtendsBody(f.blocks[c].body, g.blocks[c].body, f.nextReg) && AvailIn(f, d, r)
    ensures AvailIn(g, d, r)
  {
    NewBodyParts(f, g, c);
    hide ExtendsBody, NewBody, DefinedOn;
    if r !in f.args {
      forall p | IsPathTo(g, p, d) ensures r in DefinedOn(g, p[..|p| - 1]) {
        assert IsPathTo(f, p, d);
        DefinedMore(f, g, c, p[..|p| - 1]);
      }
    }
  }

  lemma OperandMore(f: Func, g: Func, c: Label, d: Label, local: set<Reg>, local': set<Reg>, o: Operand)
    requires NewBody(f, g, c) && ExtendsBody(f.blocks[c].body, g.blocks[c].body, f.nextReg)
    requires OperandAvail(f, d, local, o) && local <= local'
    ensures OperandAvail(g, d, local', o)
  {
    hide ExtendsBody, NewBody, AvailIn;
    if o.Use? && o.reg !in local' {
      AvailMore(f, g, c, d, o.reg);
    }
  }

  lemma BodyUses(f: Func, g: Func, c: Label)
    requires NewBody(f, g, c) && ExtendsBody(f.blocks[c].body, g.blocks[c].body, f.nextReg)
    requires BodyUsesDominated(f, c, f.blocks[c])
    ensures BodyUsesDominated(g, c, g.blocks[c])
  {
    NewBodyParts(f, g, c);
    var body, code := f.blocks[c].body, g.blocks[c].body;
    ExtendsParts(body, code, f.nextReg);
    hide ExtendsBody, NewBody, OperandAvail, BodyDsts, UniqueBody, GoodUse, OldUse;
    forall i, k | 0 <= i < |code| && 0 <= k < |code[i].args|
      ensures OperandAvail(g, c, DefsBefore(g.blocks[c], i), code[i].args[k])
    {
      var o := code[i].args[k];
      assert GoodUse(body, o, BodyDsts(code[..i]));
      OneUse(f, g, c, i, o);
    }
  }

  lemma ExtendsParts(body: seq<Instr>, code: seq<Instr>, n: nat)
    requires ExtendsBody(body, code, n)
    ensures GoodUses(body, code) && UniqueBody(code)
  {
  }

  lemma OneUse(f: Func, g: Func, c: Label, i: nat, o: Operand)
    requires NewBody(f, g, c) && ExtendsBody(f.blocks[c].body, g.blocks[c].body, f.nextReg)
    requires BodyUsesDominated(f, c, f.blocks[c]) && i <= |g.blocks[c].body|
    requires GoodUse(f.blocks[c].body, o, BodyDsts(g.blocks[c].body[..i]))
    ensures OperandAvail(g, c, DefsBefore(g.blocks[c], i), o)
  {
    NewBodyParts(f, g, c);
    var before := BodyDsts(g.blocks[c].body[..i]);
    hide ExtendsBody, NewBody, BodyDsts, AvailIn;
    if !(o.Const? || o.reg in before) {
      var j: nat, k: nat :| OldUse(f.blocks[c].body, j, k, o, before);
      assert OperandAvail(f, c, DefsBefore(f.blocks[c], j), f.blocks[c].body[j].args[k]);
      OperandMore(f, g, c, c, DefsBefore(f.blocks[c], j), DefsBefore(g.blocks[c], i), o);
    }
  }

  lemma OtherBodyUses(f: Func, g: Func, c: Label, d: Label)
    requires NewBody(f, g, c) && ExtendsBody(f.blocks[c].body, g.blocks[c].body, f.nextReg) && d in f.blocks && d != c
    requires BodyUsesDominated(f, d, f.blocks[d])
    ensures d in g.blocks && BodyUsesDominated(g, d, g.blocks[d])
  {
    NewBodyParts(f, g, c);
    hide ExtendsBody, NewBody, OperandAvail, DefsBefore;
    var b := f.blocks[d];
    forall i, k | 0 <= i < |b.body| && 0 <= k < |b.body[i].args| ensures OperandAvail(g, d, DefsBefore(b, i), b.body[i].args[k]) {
      assert OperandAvail(f, d, DefsBefore(b, i), b.body[i].args[k]);
      OperandMore(f, g, c, d, DefsBefore(b, i), DefsBefore(b, i), b.body[i].args[k]);
    }
  }

  lemma OtherUses(f: Func, g: Func, c: Label, d: Label)
    requires NewBody(f, g, c) && ExtendsBody(f.blocks[c].body, g.blocks[c].body, f.nextReg) && d in f.blocks
    requires TermUsesDominated(f, d, f.blocks[d]) && PhiUsesDominated(f, f.blocks[d])
    ensures d in g.blocks && TermUsesDominated(g, d, g.blocks[d]) && PhiUsesDominated(g, g.blocks[d])
  {
    NewBodyParts(f, g, c);
    hide ExtendsBody, NewBody, OperandAvail, Defs;
    var b, b' := f.blocks[d], g.blocks[d];
    forall k | 0 <= k < |TermUses(b'.term)| ensures OperandAvail(g, d, Defs(b'), TermUses(b'.term)[k]) {
      BlockDefs(f, g, c, d);
      OperandMore(f, g, c, d, Defs(b), Defs(b'), TermUses(b.term)[k]);
    }
    forall i, l | 0 <= i < |b'.phis| && l in b'.phis[i].incoming
      ensures l in g.blocks && OperandAvail(g, l, Defs(g.blocks[l]), b'.phis[i].incoming[l])
    {
      BlockDefs(f, g, c, l);
      OperandMore(f, g, c, l, Defs(f.blocks[l]), Defs(g.blocks[l]), b.phis[i].incoming[l]);
    }
  }

  lemma DefsBelow(f: Func, d: Label)
    requires Bounded(f) && d in f.blocks
    ensures forall r :: r in Defs(f.blocks[d]) ==> r < f.nextReg
  {
    assert BoundedBlock(f.blocks[d], f.nextReg);
    assert forall i :: 0 <= i < |f.blocks[d].phis| ==> BoundedPhi(f.blocks[d].phis[i], f.nextReg);
    assert forall i :: 0 <= i < |f.blocks[d].body| ==> BoundedInstr(f.blocks[d].body[i], f.nextReg);
  }

  lemma NewUniqueBlock(f: Func, g: Func, c: Label)
    requires NewBody(f, g, c) && ExtendsBody(f.blocks[c].body, g.blocks[c].body, f.nextReg) && Bounded(f)
    requires UniqueInBlock(f.blocks[c])
    ensures UniqueInBlock(g.blocks[c])
  {
    NewBodyParts(f, g, c);
    DefsBelow(f, c);
    hide GoodUses, Bounded, PhiDsts, BodyDsts;
  }

  lemma NewUnique(f: Func, g: Func, c: Label)
    requires NewBody(f, g, c) && ExtendsBody(f.blocks[c].body, g.blocks[c].body, f.nextReg) && Bounded(f) && UniqueDefs(f)
    ensures UniqueDefs(g)
  {
    NewBodyParts(f, g, c);
    NewUniqueBlock(f, g, c);
    ArgsBelow(f);
    hide ExtendsBody, NewBody, UniqueInBlock, Defs, Bounded;
    forall d | d in f.blocks
      ensures g.args !! Defs(g.blocks[d]) && UniqueInBlock(g.blocks[d])
    {
      BlockDefs(f, g, c, d);
    }
    forall d, e | d in f.blocks && e in f.blocks && d != e ensures Defs(g.blocks[d]) !! Defs(g.blocks[e]) {
      BlockDefs(f, g, c, d);
      BlockDefs(f, g, c, e);
      DefsBelow(f, d);
      DefsBelow(f, e);
    }
  }

  lemma ArgsBelow(f: Func)
    requires Bounded(f)
    ensures forall r :: r in f.args ==> r < f.nextReg
  {
  }

  lemma FormParts(f: Func)
    ensures WellFormed(f) <==>
      Bounded(f) && UniqueDefs(f) && ClosedCfg(f) && PhisMatchPreds(f) && forall c :: c in f.blocks ==> UsesDominated(f, c)
  {
  }

  lemma SameCfg(f: Func, g: Func, c: Label)
    requires NewBody(f, g, c) && ClosedCfg(f) && PhisMatchPreds(f)
    ensures ClosedCfg(g) && PhisMatchPreds(g)
  {
    NewBodyParts(f, g, c);
    hide NewBody, Preds, Succs;
  }

  lemma BlockUses(f: Func, g: Func, c: Label, d: Label)
    requires NewBody(f, g, c) && ExtendsBody(f.blocks[c].body, g.blocks[c].body, f.nextReg)
    requires d in f.blocks && UsesDominated(f, d)
    ensures d in g.blocks && UsesDominated(g, d)
  {
    NewBodyParts(f, g, c);
    hide ExtendsBody, NewBody, BodyUsesDominated, TermUsesDominated, PhiUsesDominated;
    OtherUses(f, g, c, d);
    if d == c {
      BodyUses(f, g, c);
    } else {
      OtherBodyUses(f, g, c, d);
    }
  }

  /** A function stays well-formed when a body is extended with fresh definitions. */
  lemma NewBodyWellFormed(f: Func, g: Func, c: Label)
    requires NewBody(f, g, c) && ExtendsBody(f.blocks[c].body, g.blocks[c].body, f.nextReg)
    requires WellFormed(f) && Bounded(g)
    ensures WellFormed(g)
  {
    NewBodyParts(f, g, c);
    hide *;
    FormParts(f);
    FormParts(g);
    NewUnique(f, g, c);
    SameCfg(f, g, c);
    forall d | d in g.blocks ensures UsesDominated(g, d) {
      assert d in f.blocks;
      BlockUses(f, g, c, d);
    }
  }
}
