/** What one call of DuplicateBB's `duplicate` makes of a function, in closed form. The condition
    is computed in the block itself, the clones live in two arms, and a tail merges them. */
module Duplication {
  import opened Wrappers
  import opened Ssa
  import opened SsaForm

  function CondReg(f: Func): Reg { f.nextReg }
  function ThenReg(f: Func, i: nat): Reg { f.nextReg + 1 + 3 * i }
  function ElseReg(f: Func, i: nat): Reg { f.nextReg + 2 + 3 * i }
  function PhiReg(f: Func, i: nat): Reg { f.nextReg + 3 + 3 * i }
  function ThenLabel(f: Func): Label { f.nextLabel }
  function ElseLabel(f: Func): Label { f.nextLabel + 1 }
  function TailLabel(f: Func): Label { f.nextLabel + 2 }

  /** Maps the result of instruction `i < j` of a body to `base + 3 * i`. */
  function NameMap(body: seq<Instr>, base: nat, j: nat): Renaming
    requires j <= |body|
  {
    if j == 0 then map[]
    else if body[j - 1].dst.Some? then NameMap(body, base, j - 1)[body[j - 1].dst.value := base + 3 * (j - 1)]
    else NameMap(body, base, j - 1)
  }

  /** Each value cloned so far is replaced everywhere by its merging PHI. */
  function PhiMap(f: Func, body: seq<Instr>, j: nat): Renaming
    requires j <= |body|
  {
    NameMap(body, PhiReg(f, 0), j)
  }

  /** The clone of instruction `i`: earlier results of the body name their clones in the same arm,
      everything else is renamed by `outer`. */
  function Clone(body: seq<Instr>, base: nat, outer: Renaming, i: nat): Instr
    requires i < |body|
  {
    Instr(if body[i].dst.Some? then Some(base + 3 * i) else None,
          body[i].ty, body[i].op,
          SubstArgs(outer + NameMap(body, base, i), body[i].args))
  }

  function ArmCode(body: seq<Instr>, base: nat, outer: Renaming, j: nat): (code: seq<Instr>)
    requires j <= |body|
    ensures |code| == j
    ensures forall i :: 0 <= i < j ==> code[i] == Clone(body, base, outer, i)
  {
    seq(j, i requires 0 <= i < j => Clone(body, base, outer, i))
  }

  function MergePhi(f: Func, i: Instr, k: nat): Phi {
    Phi(PhiReg(f, k), i.ty, map[ThenLabel(f) := Use(ThenReg(f, k)), ElseLabel(f) := Use(ElseReg(f, k))])
  }

  /** One PHI for each of the first `j` instructions that produces a value. */
  function TailPhis(f: Func, body: seq<Instr>, j: nat): seq<Phi>
    requires j <= |body|
  {
    if j == 0 then []
    else if body[j - 1].dst.Some? then TailPhis(f, body, j - 1) + [MergePhi(f, body[j - 1], j - 1)]
    else TailPhis(f, body, j - 1)
  }

  function CondInstr(f: Func, ctx: Reg): Instr {
    Instr(Some(CondReg(f)), IntTy(1), IsNull, [Use(ctx)])
  }

  /** Splitting moves the edges of `b` to the tail: PHIs of its successors now name the tail. */
  function Retarget(f: Func, b: Label, c: Label): Block
    requires b in f.blocks && c in f.blocks
  {
    if c in Succs(f.blocks[b].term) then RelabelBlock(b, TailLabel(f), f.blocks[c]) else f.blocks[c]
  }

  function ArmBlock(f: Func, b: Label, base: nat, j: nat): Block
    requires b in f.blocks && j <= |f.blocks[b].body|
  {
    var body := f.blocks[b].body;
    Block([], ArmCode(body, base, PhiMap(f, body, j), j), Jump(TailLabel(f)))
  }

  /** The blocks once `j` instructions of `b` are cloned, with `rest` left in the tail. */
  function SplitBlocks(f: Func, b: Label, ctx: Reg, j: nat, rest: seq<Instr>): map<Label, Block>
    requires b in f.blocks && j <= |f.blocks[b].body|
  {
    var B := f.blocks[b];
    var m := PhiMap(f, B.body, j);
    map c | c in f.blocks.Keys + {ThenLabel(f), ElseLabel(f), TailLabel(f)} ::
      if c == ThenLabel(f) then ArmBlock(f, b, ThenReg(f, 0), j)
      else if c == ElseLabel(f) then ArmBlock(f, b, ElseReg(f, 0), j)
      else if c == TailLabel(f) then Block(TailPhis(f, B.body, j), SubstBody(m, rest), SubstTerm(m, B.term))
      else if c == b then
        Block(SubstPhis(m, Retarget(f, b, b).phis), SubstBody(m, [CondInstr(f, ctx)]),
              Branch(Use(CondReg(f)), ThenLabel(f), ElseLabel(f)))
      else SubstBlock(m, Retarget(f, b, c))
  }

  /** The function after `duplicate` on block `b` with the context register `ctx`. */
  function Duplicated(f: Func, b: Label, ctx: Reg): Func
    requires b in f.blocks
  {
    var body := f.blocks[b].body;
    Func(f.args, f.entry, SplitBlocks(f, b, ctx, |body|, []),
         f.nextReg + 1 + 3 * |body|, f.nextLabel + 3)
  }

  /** The renaming that one `duplicate` performs: every value of the body becomes its PHI. */
  function Replaced(f: Func, b: Label): Renaming
    requires b in f.blocks
  {
    PhiMap(f, f.blocks[b].body, |f.blocks[b].body|)
  }

  lemma ReplacedIs(f: Func, b: Label)
    requires b in f.blocks
    ensures Replaced(f, b) == PhiMap(f, f.blocks[b].body, |f.blocks[b].body|)
         == NameMap(f.blocks[b].body, PhiReg(f, 0), |f.blocks[b].body|)
  {
  }

  /** The blocks of the result, one by one. */
  lemma BlocksAre(f: Func, b: Label, ctx: Reg)
    requires Bounded(f) && b in f.blocks
    ensures forall c :: c in f.blocks ==> c < f.nextLabel
    ensures var blocks, body, m := Duplicated(f, b, ctx).blocks, f.blocks[b].body, Replaced(f, b);
      && blocks.Keys == f.blocks.Keys + {ThenLabel(f), ElseLabel(f), TailLabel(f)}
      && blocks[ThenLabel(f)] == ArmBlock(f, b, ThenReg(f, 0), |body|)
      && blocks[ElseLabel(f)] == ArmBlock(f, b, ElseReg(f, 0), |body|)
      && blocks[TailLabel(f)] == Block(TailPhis(f, body, |body|), SubstBody(m, []), SubstTerm(m, f.blocks[b].term))
      && blocks[b] == Block(SubstPhis(m, Retarget(f, b, b).phis), SubstBody(m, [CondInstr(f, ctx)]),
                            Branch(Use(CondReg(f)), ThenLabel(f), ElseLabel(f)))
      && forall c :: c in f.blocks && c != b ==> blocks[c] == SubstBlock(m, Retarget(f, b, c))
  {
    hide ArmBlock, SubstBody, SubstPhis, SubstTerm, SubstBlock, Retarget, PhiMap, TailPhis, BoundedBlock;
  }

  // ---------- Facts about the names ----------

  lemma {:induction false} NameMapKeys(body: seq<Instr>, base: nat, j: nat)
    requires j <= |body|
    ensures NameMap(body, base, j).Keys == BodyDsts(body[..j])
  {
    if j > 0 {
      NameMapKeys(body, base, j - 1);
      BodyDstsSnoc(body[..j]);
      assert body[..j][..j - 1] == body[..j - 1];
    }
  }

  lemma {:induction false} NameMapValue(body: seq<Instr>, base: nat, j: nat, r: Reg) returns (i: nat)
    requires j <= |body|
    requires r in NameMap(body, base, j)
    ensures i < j && body[i].dst == Some(r) && NameMap(body, base, j)[r] == base + 3 * i
  {
    if body[j - 1].dst == Some(r) {
      i := j - 1;
    } else {
      i := NameMapValue(body, base, j - 1, r);
    }
  }

  /** With unique results the name of instruction `i` is fixed once it is assigned. */
  lemma {:induction false} NameMapAt(b: Block, base: nat, j: nat, i: nat)
    requires UniqueInBlock(b) && i < j <= |b.body| && b.body[i].dst.Some?
    ensures b.body[i].dst.value in NameMap(b.body, base, j)
    ensures NameMap(b.body, base, j)[b.body[i].dst.value] == base + 3 * i
  {
    if i < j - 1 {
      NameMapAt(b, base, j - 1, i);
    }
  }

  lemma BodyDstsAt(body: seq<Instr>, i: nat)
    requires i < |body| && body[i].dst.Some?
    ensures body[i].dst.value in BodyDsts(body)
  {
  }

  lemma BodyDstsPrefix(body: seq<Instr>, j: nat)
    requires j <= |body|
    ensures BodyDsts(body[..j]) <= BodyDsts(body)
  {
    assert forall i :: 0 <= i < j ==> body[..j][i] == body[i];
  }
}
