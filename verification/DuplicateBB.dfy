/** The DuplicateBB pass as it runs: it selects targets, then for each one splits the block, clones
    its instructions one by one and replaces each by a PHI in every use, all in place. */
module DuplicateBB {
  import opened Wrappers
  import opened Ssa
  import opened SsaForm
  import opened Duplication
  import DuplicationForm
  import opened DuplicationLooks
  import opened DuplicationRuns
  import opened IrFunction
  import Riv

  // ---------- The tail while it is being emptied ----------

  /** The instructions without a result that have been cloned but not yet purged. */
  function Voids(body: seq<Instr>, j: nat): seq<Instr>
    requires j <= |body|
  {
    if j == 0 then []
    else if body[j - 1].dst.None? then Voids(body, j - 1) + [body[j - 1]]
    else Voids(body, j - 1)
  }

  function Rest(body: seq<Instr>, j: nat): seq<Instr>
    requires j <= |body|
  {
    Voids(body, j) + body[j..]
  }

  /** The clone map of an arm after `j` instructions. Its keys follow the replacement of uses: the
      clone of a replaced instruction is found under the PHI. */
  function FollowMap(f: Func, body: seq<Instr>, base: nat, j: nat): Renaming
    requires j <= |body|
  {
    if j == 0 then map[]
    else if body[j - 1].dst.Some? then FollowMap(f, body, base, j - 1)[PhiReg(f, j - 1) := base + 3 * (j - 1)]
    else FollowMap(f, body, base, j - 1)
  }

  lemma {:induction false} FollowKey(f: Func, body: seq<Instr>, base: nat, j: nat, x: Reg) returns (i: nat)
    requires j <= |body| && x in FollowMap(f, body, base, j)
    ensures i < j && x == PhiReg(f, i)
  {
    if body[j - 1].dst.Some? && x == PhiReg(f, j - 1) {
      i := j - 1;
    } else {
      i := FollowKey(f, body, base, j - 1, x);
    }
  }

  lemma {:induction false} FollowAt(f: Func, body: seq<Instr>, base: nat, j: nat, i: nat)
    requires i < j <= |body| && body[i].dst.Some?
    ensures PhiReg(f, i) in FollowMap(f, body, base, j)
    ensures FollowMap(f, body, base, j)[PhiReg(f, i)] == base + 3 * i
  {
    if i < j - 1 {
      FollowAt(f, body, base, j - 1, i);
    }
  }

  /** Remapping an operand of the tail through an arm's map finds the clone in that arm. */
  lemma RemapFindsClone(f: Func, b: Block, base: nat, j: nat, x: Reg)
    requires UniqueInBlock(b) && j <= |b.body| && x < f.nextReg
    ensures Rename(FollowMap(f, b.body, base, j), Rename(PhiMap(f, b.body, j), x))
         == Rename(PhiMap(f, b.body, j) + NameMap(b.body, base, j), x)
  {
    var body := b.body;
    NameMapKeys(body, base, j);
    NameMapKeys(body, PhiReg(f, 0), j);
    if x in PhiMap(f, body, j) {
      var i := NameMapValue(body, PhiReg(f, 0), j, x);
      FollowAt(f, body, base, j, i);
      NameMapAt(b, base, j, i);
    } else if x in FollowMap(f, body, base, j) {
      var i := FollowKey(f, body, base, j, x);
    }
  }

  // ---------- Replacing all uses of one register ----------

  /** `m` followed by the replacement of `r`, on registers of the old function, is `m'`. */
  ghost predicate Composes(n: nat, m: Renaming, r: Reg, p: Reg, m': Renaming) {
    forall x {:trigger Rename(m, x)} :: 0 <= x < n ==> Rename(map[r := p], Rename(m, x)) == Rename(m', x)
  }

  lemma ComposeArgs(n: nat, m: Renaming, r: Reg, p: Reg, m': Renaming, args: seq<Operand>)
    requires Composes(n, m, r, p, m') && forall k :: 0 <= k < |args| ==> BoundedOperand(args[k], n)
    ensures SubstArgs(map[r := p], SubstArgs(m, args)) == SubstArgs(m', args)
  {
    forall k | 0 <= k < |args|
      ensures SubstOperand(map[r := p], SubstOperand(m, args[k])) == SubstOperand(m', args[k])
    {
      assert BoundedOperand(args[k], n);
    }
  }

  lemma ComposeBody(n: nat, m: Renaming, r: Reg, p: Reg, m': Renaming, body: seq<Instr>)
    requires Composes(n, m, r, p, m') && forall k :: 0 <= k < |body| ==> BoundedInstr(body[k], n)
    ensures SubstBody(map[r := p], SubstBody(m, body)) == SubstBody(m', body)
  {
    forall k | 0 <= k < |body|
      ensures SubstInstr(map[r := p], SubstInstr(m, body[k])) == SubstInstr(m', body[k])
    {
      assert BoundedInstr(body[k], n);
      ComposeArgs(n, m, r, p, m', body[k].args);
    }
  }

  lemma ComposePhis(n: nat, m: Renaming, r: Reg, p: Reg, m': Renaming, phis: seq<Phi>)
    requires Composes(n, m, r, p, m') && forall k :: 0 <= k < |phis| ==> BoundedPhi(phis[k], n)
    ensures SubstPhis(map[r := p], SubstPhis(m, phis)) == SubstPhis(m', phis)
  {
    forall k | 0 <= k < |phis|
      ensures SubstPhi(map[r := p], SubstPhi(m, phis[k])) == SubstPhi(m', phis[k])
    {
      assert BoundedPhi(phis[k], n);
      var x, y := SubstPhi(map[r := p], SubstPhi(m, phis[k])).incoming, SubstPhi(m', phis[k]).incoming;
      assert x.Keys == y.Keys;
      forall l | l in x ensures x[l] == y[l] {
        assert BoundedOperand(phis[k].incoming[l], n);
      }
      assert x == y;
    }
  }

  lemma ComposeTerm(n: nat, m: Renaming, r: Reg, p: Reg, m': Renaming, t: Term)
    requires Composes(n, m, r, p, m') && forall k :: 0 <= k < |TermUses(t)| ==> BoundedOperand(TermUses(t)[k], n)
    ensures SubstTerm(map[r := p], SubstTerm(m, t)) == SubstTerm(m', t)
  {
    match t
    case Switch(on, _, _) => assert BoundedOperand(TermUses(t)[0], n);
    case Return(Some(o)) => assert BoundedOperand(TermUses(t)[0], n);
    case _ =>
  }

  lemma ComposeBlock(n: nat, m: Renaming, r: Reg, p: Reg, m': Renaming, b: Block)
    requires Composes(n, m, r, p, m') && BoundedBlock(b, n)
    ensures SubstBlock(map[r := p], SubstBlock(m, b)) == SubstBlock(m', b)
  {
    ComposePhis(n, m, r, p, m', b.phis);
    ComposeBody(n, m, r, p, m', b.body);
    ComposeTerm(n, m, r, p, m', b.term);
  }

  /** The replacement made for instruction `j` extends the PHI map by one entry. */
  lemma PhiMapComposes(f: Func, b: Block, j: nat)
    requires UniqueInBlock(b) && BoundedBlock(b, f.nextReg) && j < |b.body| && b.body[j].dst.Some?
    ensures Composes(f.nextReg, PhiMap(f, b.body, j), b.body[j].dst.value, PhiReg(f, j), PhiMap(f, b.body, j + 1))
  {
    var m, m', r := PhiMap(f, b.body, j), PhiMap(f, b.body, j + 1), b.body[j].dst.value;
    NotYetNamed(f, b, PhiReg(f, 0), j);
    forall x: Reg | x < f.nextReg ensures Rename(map[r := PhiReg(f, j)], Rename(m, x)) == Rename(m', x) {
      if x in m {
        var i := NameMapValue(b.body, PhiReg(f, 0), j, x);
      }
    }
  }

  lemma NotYetNamed(f: Func, b: Block, base: nat, j: nat)
    requires UniqueInBlock(b) && BoundedBlock(b, f.nextReg) && j < |b.body| && b.body[j].dst.Some?
    ensures b.body[j].dst.value < f.nextReg
    ensures forall i :: 0 <= i <= j ==> b.body[j].dst.value !in NameMap(b.body, base, i)
  {
    assert BoundedInstr(b.body[j], f.nextReg);
    forall i | 0 <= i <= j ensures b.body[j].dst.value !in NameMap(b.body, base, i) {
      if b.body[j].dst.value in NameMap(b.body, base, i) {
        var k := NameMapValue(b.body, base, i, b.body[j].dst.value);
      }
    }
  }

  /** The same for the operands of the clones made so far. */
  lemma CloneMapComposes(f: Func, b: Block, base: nat, j: nat, i: nat)
    requires UniqueInBlock(b) && BoundedBlock(b, f.nextReg) && i <= j < |b.body| && b.body[j].dst.Some?
    requires base >= f.nextReg
    ensures Composes(f.nextReg, PhiMap(f, b.body, j) + NameMap(b.body, base, i), b.body[j].dst.value, PhiReg(f, j),
                     PhiMap(f, b.body, j + 1) + NameMap(b.body, base, i))
  {
    var m, m' := PhiMap(f, b.body, j) + NameMap(b.body, base, i), PhiMap(f, b.body, j + 1) + NameMap(b.body, base, i);
    var r := b.body[j].dst.value;
    NotYetNamed(f, b, base, j);
    PhiMapComposes(f, b, j);
    forall x: Reg | x < f.nextReg ensures Rename(map[r := PhiReg(f, j)], Rename(m, x)) == Rename(m', x) {
      if x in NameMap(b.body, base, i) {
        var k := NameMapValue(b.body, base, i, x);
      } else {
        assert Rename(m, x) == Rename(PhiMap(f, b.body, j), x);
        assert Rename(m', x) == Rename(PhiMap(f, b.body, j + 1), x);
      }
    }
  }

  // ---------- One iteration of the cloning loop, on values ----------

  /** The clone of a tail instruction in an arm whose map is `vmap`. */
  function CloneOf(i: Instr, vmap: Renaming, name: Reg): Instr {
    Instr(if i.dst.Some? then Some(name) else None, i.ty, i.op, SubstArgs(vmap, i.args))
  }

  function AddTo(blocks: map<Label, Block>, l: Label, i: Instr): map<Label, Block>
    requires l in blocks
  {
    blocks[l := blocks[l].(body := blocks[l].body + [i])]
  }

  /** The replaced instruction leaves the tail and its PHI joins the others. */
  function PhiFor(blocks: map<Label, Block>, l: Label, k: nat, p: Phi): map<Label, Block>
    requires l in blocks && k < |blocks[l].body|
  {
    blocks[l := Block(blocks[l].phis + [p], Remove(blocks[l].body, k), blocks[l].term)]
  }

  function ReplaceUses(blocks: map<Label, Block>, r: Reg, p: Reg): map<Label, Block> {
    map c | c in blocks :: SubstBlock(map[r := p], blocks[c])
  }

  ghost predicate Ready(f: Func, b: Label, ctx: Reg) {
    b in f.blocks && ctx < f.nextReg && Bounded(f) && UniqueInBlock(f.blocks[b])
  }

  /** The state of the function before iteration `j`. */
  ghost function Before(f: Func, b: Label, ctx: Reg, j: nat): map<Label, Block>
    requires b in f.blocks && j <= |f.blocks[b].body|
  {
    SplitBlocks(f, b, ctx, j, Rest(f.blocks[b].body, j))
  }

  /** With both clones of instruction `j` added. */
  ghost function WithClones(f: Func, b: Label, ctx: Reg, j: nat): map<Label, Block>
    requires b in f.blocks && j < |f.blocks[b].body|
  {
    var body := f.blocks[b].body;
    var i := SubstInstr(PhiMap(f, body, j), body[j]);
    AddTo(AddTo(Before(f, b, ctx, j), ThenLabel(f), CloneOf(i, FollowMap(f, body, ThenReg(f, 0), j), ThenReg(f, j))),
          ElseLabel(f), CloneOf(i, FollowMap(f, body, ElseReg(f, 0), j), ElseReg(f, j)))
  }

  lemma BeforeShape(f: Func, b: Label, ctx: Reg, j: nat)
    requires b in f.blocks && j <= |f.blocks[b].body|
    ensures ThenLabel(f) in Before(f, b, ctx, j) && ElseLabel(f) in Before(f, b, ctx, j) && TailLabel(f) in Before(f, b, ctx, j)
    ensures |Before(f, b, ctx, j)[TailLabel(f)].body| == |Voids(f.blocks[b].body, j)| + |f.blocks[b].body| - j
    ensures Voids(f.blocks[b].body, 0) == []
  {
  }

  lemma CurrentInstr(f: Func, b: Label, ctx: Reg, j: nat)
    requires b in f.blocks && j < |f.blocks[b].body|
    ensures var body := f.blocks[b].body;
      var tail := Before(f, b, ctx, j)[TailLabel(f)];
      && |Voids(body, j)| < |tail.body|
      && tail.body[|Voids(body, j)|] == SubstInstr(PhiMap(f, body, j), body[j])
  {
    var body := f.blocks[b].body;
    assert Rest(body, j)[|Voids(body, j)|] == body[j];
  }

  /** The clone made from the tail's instruction is the clone of the original one. */
  lemma CloneIsClone(f: Func, b: Label, base: nat, j: nat)
    requires b in f.blocks && Bounded(f) && UniqueInBlock(f.blocks[b]) && j < |f.blocks[b].body|
    ensures var body := f.blocks[b].body;
      CloneOf(SubstInstr(PhiMap(f, body, j), body[j]), FollowMap(f, body, base, j), base + 3 * j)
      == Clone(body, base, PhiMap(f, body, j), j)
  {
    var body := f.blocks[b].body;
    assert BoundedBlock(f.blocks[b], f.nextReg);
    assert BoundedInstr(body[j], f.nextReg);
    var m, follow := PhiMap(f, body, j), FollowMap(f, body, base, j);
    forall k | 0 <= k < |body[j].args|
      ensures SubstOperand(follow, SubstOperand(m, body[j].args[k])) == SubstOperand(m + NameMap(body, base, j), body[j].args[k])
    {
      var o := body[j].args[k];
      assert BoundedOperand(o, f.nextReg);
      if o.Use? {
        RemapFindsClone(f, f.blocks[b], base, j, o.reg);
      }
    }
    assert SubstArgs(follow, SubstArgs(m, body[j].args)) == SubstArgs(m + NameMap(body, base, j), body[j].args);
  }

  lemma ArmCodeSnoc(body: seq<Instr>, base: nat, outer: Renaming, j: nat)
    requires j < |body|
    ensures ArmCode(body, base, outer, j + 1) == ArmCode(body, base, outer, j) + [Clone(body, base, outer, j)]
  {
  }

  /** A void instruction stays in the tail until the purge. */
  lemma VoidIteration(f: Func, b: Label, ctx: Reg, j: nat)
    requires Ready(f, b, ctx) && j < |f.blocks[b].body| && f.blocks[b].body[j].dst.None?
    ensures WithClones(f, b, ctx, j) == Before(f, b, ctx, j + 1)
    ensures |Voids(f.blocks[b].body, j + 1)| == |Voids(f.blocks[b].body, j)| + 1
  {
    var body := f.blocks[b].body;
    CloneIsClone(f, b, ThenReg(f, 0), j);
    CloneIsClone(f, b, ElseReg(f, 0), j);
    ArmCodeSnoc(body, ThenReg(f, 0), PhiMap(f, body, j), j);
    ArmCodeSnoc(body, ElseReg(f, 0), PhiMap(f, body, j), j);
    assert Rest(body, j + 1) == Rest(body, j);
  }

  lemma {:induction false} VoidsBounded(body: seq<Instr>, j: nat, n: nat)
    requires j <= |body| && forall k :: 0 <= k < |body| ==> BoundedInstr(body[k], n)
    ensures forall k :: 0 <= k < |Voids(body, j)| ==> BoundedInstr(Voids(body, j)[k], n)
  {
    if j > 0 {
      VoidsBounded(body, j - 1, n);
    }
  }

  /** Replacing the result of instruction `j` in an arm of `j + 1` clones. */
  lemma ArmReplaced(f: Func, b: Label, base: nat, j: nat)
    requires b in f.blocks && Bounded(f) && UniqueInBlock(f.blocks[b]) && base >= f.nextReg
    requires j < |f.blocks[b].body| && f.blocks[b].body[j].dst.Some?
    ensures var body := f.blocks[b].body;
      SubstBody(map[body[j].dst.value := PhiReg(f, j)], ArmCode(body, base, PhiMap(f, body, j), j + 1))
      == ArmCode(body, base, PhiMap(f, body, j + 1), j + 1)
  {
    var B, body := f.blocks[b], f.blocks[b].body;
    var r, p := body[j].dst.value, PhiReg(f, j);
    assert BoundedBlock(B, f.nextReg);
    forall i | 0 <= i <= j
      ensures SubstInstr(map[r := p], Clone(body, base, PhiMap(f, body, j), i)) == Clone(body, base, PhiMap(f, body, j + 1), i)
    {
      CloneMapComposes(f, B, base, j, i);
      assert BoundedInstr(body[i], f.nextReg);
      ComposeArgs(f.nextReg, PhiMap(f, body, j) + NameMap(body, base, i), r, p,
                  PhiMap(f, body, j + 1) + NameMap(body, base, i), body[i].args);
    }
  }

  lemma {:induction false} TailPhisKept(f: Func, body: seq<Instr>, j: nat, r: Reg, p: Reg)
    requires j <= |body| && r < f.nextReg
    ensures SubstPhis(map[r := p], TailPhis(f, body, j)) == TailPhis(f, body, j)
  {
    if j > 0 {
      TailPhisKept(f, body, j - 1, r, p);
      if body[j - 1].dst.Some? {
        var phi := MergePhi(f, body[j - 1], j - 1);
        assert SubstPhi(map[r := p], phi).incoming == phi.incoming;
      }
    }
  }

  /** The block after iteration `j` on a value, with its uses replaced. */
  lemma TailReplaced(f: Func, b: Label, ctx: Reg, j: nat)
    requires Ready(f, b, ctx) && j < |f.blocks[b].body| && f.blocks[b].body[j].dst.Some?
    ensures var body := f.blocks[b].body;
      var tail := Before(f, b, ctx, j)[TailLabel(f)];
      var k := |Voids(body, j)|;
      && k < |tail.body|
      && SubstBlock(map[body[j].dst.value := PhiReg(f, j)],
                    Block(tail.phis + [MergePhi(f, body[j], j)], Remove(tail.body, k), tail.term))
         == Before(f, b, ctx, j + 1)[TailLabel(f)]
  {
    hide *;
    ReadyParts(f, b, ctx);
    var B, body := f.blocks[b], f.blocks[b].body;
    var r, p, n := body[j].dst.value, PhiReg(f, j), f.nextReg;
    var m, m' := PhiMap(f, body, j), PhiMap(f, body, j + 1);
    DstBelow(body[j], n);
    CurrentInstr(f, b, ctx, j);
    PhiMapComposes(f, B, j);
    var k := |Voids(body, j)|;
    RestBounded(body, j + 1, n);
    ComposeBody(n, m, r, p, m', Rest(body, j + 1));
    ComposeTerm(n, m, r, p, m', B.term);
    TailPhisKept(f, body, j + 1, r, p);
    RestWithout(body, m, j);
    TailPhisNext(f, body, j);
    TailBefore(f, b, ctx, j);
    TailBefore(f, b, ctx, j + 1);
    SubstBlockIs(map[r := p], Block(TailPhis(f, body, j + 1), SubstBody(m, Rest(body, j + 1)), SubstTerm(m, B.term)));
  }

  lemma DstBelow(i: Instr, n: nat)
    requires BoundedInstr(i, n) && i.dst.Some?
    ensures i.dst.value < n
  {
  }

  lemma RestBounded(body: seq<Instr>, j: nat, n: nat)
    requires j <= |body| && forall k :: 0 <= k < |body| ==> BoundedInstr(body[k], n)
    ensures forall k :: 0 <= k < |Rest(body, j)| ==> BoundedInstr(Rest(body, j)[k], n)
  {
    hide BoundedInstr;
    VoidsBounded(body, j, n);
  }

  /** What is left of the tail once instruction `j`, which has a value, is taken out. */
  lemma RestWithout(body: seq<Instr>, m: Renaming, j: nat)
    requires j < |body| && body[j].dst.Some?
    ensures |Voids(body, j)| < |SubstBody(m, Rest(body, j))|
    ensures Remove(SubstBody(m, Rest(body, j)), |Voids(body, j)|) == SubstBody(m, Rest(body, j + 1))
  {
    hide SubstInstr;
    ValuesStay(body, j);
  }

  lemma TailPhisNext(f: Func, body: seq<Instr>, j: nat)
    requires j < |body| && body[j].dst.Some?
    ensures TailPhis(f, body, j + 1) == TailPhis(f, body, j) + [MergePhi(f, body[j], j)]
  {
  }

  lemma TailBefore(f: Func, b: Label, ctx: Reg, j: nat)
    requires b in f.blocks && j <= |f.blocks[b].body|
    ensures var body := f.blocks[b].body;
      TailLabel(f) in Before(f, b, ctx, j) &&
      Before(f, b, ctx, j)[TailLabel(f)] ==
        Block(TailPhis(f, body, j), SubstBody(PhiMap(f, body, j), Rest(body, j)), SubstTerm(PhiMap(f, body, j), f.blocks[b].term))
  {
    hide ArmCode, SubstBlock, SubstPhis, SubstBody, SubstTerm, Rest, TailPhis, Retarget, PhiMap;
  }

  lemma SubstBlockIs(m: Renaming, b: Block)
    ensures SubstBlock(m, b) == Block(SubstPhis(m, b.phis), SubstBody(m, b.body), SubstTerm(m, b.term))
  {
  }

  lemma HeadReplaced(f: Func, b: Label, ctx: Reg, j: nat)
    requires Ready(f, b, ctx) && j < |f.blocks[b].body| && f.blocks[b].body[j].dst.Some?
    ensures SubstBlock(map[f.blocks[b].body[j].dst.value := PhiReg(f, j)], Before(f, b, ctx, j)[b])
         == Before(f, b, ctx, j + 1)[b]
  {
    var B, body := f.blocks[b], f.blocks[b].body;
    var r, p, n := body[j].dst.value, PhiReg(f, j), f.nextReg;
    var m, m' := PhiMap(f, body, j), PhiMap(f, body, j + 1);
    assert b < f.nextLabel && BoundedBlock(B, n);
    assert BoundedInstr(body[j], n);
    PhiMapComposes(f, B, j);
    DuplicationForm.RetargetBounded(f, b, b);
    ComposePhis(n, m, r, p, m', Retarget(f, b, b).phis);
    ComposeArgs(n, m, r, p, m', [Use(ctx)]);
    assert SubstBody(map[r := p], SubstBody(m, [CondInstr(f, ctx)])) == SubstBody(m', [CondInstr(f, ctx)]);
  }

  lemma OtherReplaced(f: Func, b: Label, ctx: Reg, j: nat, c: Label)
    requires Ready(f, b, ctx) && j < |f.blocks[b].body| && f.blocks[b].body[j].dst.Some?
    requires c in f.blocks && c != b
    ensures c in Before(f, b, ctx, j) && c in Before(f, b, ctx, j + 1)
    ensures SubstBlock(map[f.blocks[b].body[j].dst.value := PhiReg(f, j)], Before(f, b, ctx, j)[c])
         == Before(f, b, ctx, j + 1)[c]
  {
    assert c < f.nextLabel;
    assert BoundedBlock(f.blocks[b], f.nextReg);
    PhiMapComposes(f, f.blocks[b], j);
    DuplicationForm.RetargetBounded(f, b, c);
    ComposeBlock(f.nextReg, PhiMap(f, f.blocks[b].body, j), f.blocks[b].body[j].dst.value, PhiReg(f, j),
                 PhiMap(f, f.blocks[b].body, j + 1), Retarget(f, b, c));
  }

  /** What the clones change. */
  lemma ClonesAt(f: Func, b: Label, ctx: Reg, j: nat)
    requires b in f.blocks && j < |f.blocks[b].body|
    ensures WithClones(f, b, ctx, j).Keys == Before(f, b, ctx, j).Keys
    ensures forall c :: c in Before(f, b, ctx, j) && c != ThenLabel(f) && c != ElseLabel(f) ==>
      WithClones(f, b, ctx, j)[c] == Before(f, b, ctx, j)[c]
    ensures TailLabel(f) in Before(f, b, ctx, j) && TailLabel(f) != ThenLabel(f) && TailLabel(f) != ElseLabel(f)
  {
    hide ArmCode, SubstBlock, SubstPhis, SubstBody, SubstTerm, CloneOf, Rest, TailPhis, Retarget, PhiMap;
  }

  lemma SameKeys(f: Func, b: Label, ctx: Reg, j: nat, k: nat)
    requires b in f.blocks && j <= |f.blocks[b].body| && k <= |f.blocks[b].body|
    ensures Before(f, b, ctx, j).Keys == Before(f, b, ctx, k).Keys == f.blocks.Keys + {ThenLabel(f), ElseLabel(f), TailLabel(f)}
  {
  }

  /** Replacing uses, block by block. */
  lemma ReplaceUsesAt(blocks: map<Label, Block>, l: Label, k: nat, p: Phi, r: Reg, q: Reg)
    requires l in blocks && k < |blocks[l].body|
    ensures var x := ReplaceUses(PhiFor(blocks, l, k, p), r, q);
      && x.Keys == blocks.Keys
      && (forall c :: c in blocks && c != l ==> x[c] == SubstBlock(map[r := q], blocks[c]))
      && x[l] == SubstBlock(map[r := q], Block(blocks[l].phis + [p], Remove(blocks[l].body, k), blocks[l].term))
  {
    hide SubstBlock, Remove;
  }

  lemma ValuesStay(body: seq<Instr>, j: nat)
    requires j < |body| && body[j].dst.Some?
    ensures Voids(body, j + 1) == Voids(body, j)
  {
  }

  /** An instruction with a result gives way to its PHI, in every use of the function. */
  lemma ValueIteration(f: Func, b: Label, ctx: Reg, j: nat)
    requires Ready(f, b, ctx) && j < |f.blocks[b].body| && f.blocks[b].body[j].dst.Some?
    ensures var body := f.blocks[b].body;
      var k, blocks := |Voids(body, j)|, WithClones(f, b, ctx, j);
      && k < |blocks[TailLabel(f)].body|
      && ReplaceUses(PhiFor(blocks, TailLabel(f), k, MergePhi(f, body[j], j)), body[j].dst.value, PhiReg(f, j))
         == Before(f, b, ctx, j + 1)
    ensures Voids(f.blocks[b].body, j + 1) == Voids(f.blocks[b].body, j)
  {
    hide *;
    BlockThere(f, b, ctx);
    var body := f.blocks[b].body;
    var k, blocks := |Voids(body, j)|, WithClones(f, b, ctx, j);
    CurrentInstr(f, b, ctx, j);
    ClonesAt(f, b, ctx, j);
    SameKeys(f, b, ctx, j, j + 1);
    ValuesStay(body, j);
    ReplaceUsesAt(blocks, TailLabel(f), k, MergePhi(f, body[j], j), body[j].dst.value, PhiReg(f, j));
    var x := ReplaceUses(PhiFor(blocks, TailLabel(f), k, MergePhi(f, body[j], j)), body[j].dst.value, PhiReg(f, j));
    forall c | c in Before(f, b, ctx, j + 1) ensures x[c] == Before(f, b, ctx, j + 1)[c] {
      if c == ThenLabel(f) {
        ArmBlockReplaced(f, b, ctx, j, ThenReg(f, 0), c);
      } else if c == ElseLabel(f) {
        ArmBlockReplaced(f, b, ctx, j, ElseReg(f, 0), c);
      } else if c == TailLabel(f) {
        TailReplaced(f, b, ctx, j);
      } else if c == b {
        HeadReplaced(f, b, ctx, j);
      } else {
        OtherReplaced(f, b, ctx, j, c);
      }
    }
  }

  lemma StartMaps(f: Func, body: seq<Instr>, table: Renaming)
    ensures forall base :: FollowMap(f, body, base, 0) == map[]
    ensures table + PhiMap(f, body, 0) == table
  {
  }

  /** What one iteration of the loop computes, step by step. */
  lemma Iteration(f: Func, b: Label, ctx: Reg, j: nat)
    requires Ready(f, b, ctx) && j < |f.blocks[b].body|
    ensures var body, before, tail := f.blocks[b].body, Before(f, b, ctx, j), TailLabel(f);
      var k := |Voids(body, j)|;
      && ThenLabel(f) in before && tail in before && k < |before[tail].body|
      && var i := before[tail].body[k];
      var x := AddTo(before, ThenLabel(f), CloneOf(i, FollowMap(f, body, ThenReg(f, 0), j), ThenReg(f, j)));
      && ElseLabel(f) in x
      && var y := AddTo(x, ElseLabel(f), CloneOf(i, FollowMap(f, body, ElseReg(f, 0), j), ElseReg(f, j)));
      && tail in y && k < |y[tail].body|
      && i.dst == body[j].dst
      && (i.dst.None? ==>
            && Before(f, b, ctx, j + 1) == y && |Voids(body, j + 1)| == k + 1
            && FollowMap(f, body, ThenReg(f, 0), j + 1) == FollowMap(f, body, ThenReg(f, 0), j)
            && FollowMap(f, body, ElseReg(f, 0), j + 1) == FollowMap(f, body, ElseReg(f, 0), j)
            && FollowMap(f, body, PhiReg(f, 0), j + 1) == FollowMap(f, body, PhiReg(f, 0), j)
            && PhiMap(f, body, j + 1) == PhiMap(f, body, j))
      && (i.dst.Some? ==>
            && var phi := Phi(PhiReg(f, j), i.ty, map[ThenLabel(f) := Use(ThenReg(f, j)), ElseLabel(f) := Use(ElseReg(f, j))]);
            && Before(f, b, ctx, j + 1) == ReplaceUses(PhiFor(y, tail, k, phi), i.dst.value, PhiReg(f, j))
            && |Voids(body, j + 1)| == k
            && FollowMap(f, body, ThenReg(f, 0), j + 1) == FollowMap(f, body, ThenReg(f, 0), j)[PhiReg(f, j) := ThenReg(f, j)]
            && FollowMap(f, body, ElseReg(f, 0), j + 1) == FollowMap(f, body, ElseReg(f, 0), j)[PhiReg(f, j) := ElseReg(f, j)]
            && FollowMap(f, body, PhiReg(f, 0), j + 1) == FollowMap(f, body, PhiReg(f, 0), j)[PhiReg(f, j) := PhiReg(f, j)]
            && PhiMap(f, body, j + 1) == PhiMap(f, body, j)[i.dst.value := PhiReg(f, j)])
  {
    hide Before, PhiFor, ReplaceUses, CloneOf;
    CurrentInstr(f, b, ctx, j);
    BeforeShape(f, b, ctx, j);
    ClonesKeepTail(f, b, ctx, j);
    if f.blocks[b].body[j].dst.Some? {
      ValueIteration(f, b, ctx, j);
    } else {
      VoidIteration(f, b, ctx, j);
    }
  }

  lemma ClonesKeepTail(f: Func, b: Label, ctx: Reg, j: nat)
    requires b in f.blocks && j < |f.blocks[b].body|
    ensures TailLabel(f) in WithClones(f, b, ctx, j)
    ensures WithClones(f, b, ctx, j)[TailLabel(f)] == Before(f, b, ctx, j)[TailLabel(f)]
  {
  }

  /** An arm with its next clone. */
  lemma ClonedArm(f: Func, b: Label, ctx: Reg, j: nat, base: nat, arm: Label)
    requires b in f.blocks && j < |f.blocks[b].body|
    requires (base == ThenReg(f, 0) && arm == ThenLabel(f)) || (base == ElseReg(f, 0) && arm == ElseLabel(f))
    ensures arm in WithClones(f, b, ctx, j)
    ensures var body := f.blocks[b].body;
      WithClones(f, b, ctx, j)[arm] ==
        Block([], ArmCode(body, base, PhiMap(f, body, j), j) +
                  [CloneOf(SubstInstr(PhiMap(f, body, j), body[j]), FollowMap(f, body, base, j), base + 3 * j)], Jump(TailLabel(f)))
  {
    hide ArmCode, SubstBlock, SubstPhis, SubstBody, SubstTerm, SubstInstr, CloneOf, Rest, TailPhis, Retarget, PhiMap, FollowMap;
  }

  lemma ArmBefore(f: Func, b: Label, ctx: Reg, j: nat, base: nat, arm: Label)
    requires b in f.blocks && j <= |f.blocks[b].body|
    requires (base == ThenReg(f, 0) && arm == ThenLabel(f)) || (base == ElseReg(f, 0) && arm == ElseLabel(f))
    ensures var body := f.blocks[b].body;
      arm in Before(f, b, ctx, j) &&
      Before(f, b, ctx, j)[arm] == Block([], ArmCode(body, base, PhiMap(f, body, j), j), Jump(TailLabel(f)))
  {
    hide ArmCode, SubstBlock, SubstPhis, SubstBody, SubstTerm, Rest, TailPhis, Retarget, PhiMap;
  }

  lemma SubstArm(m: Renaming, body: seq<Instr>, l: Label)
    ensures SubstBlock(m, Block([], body, Jump(l))) == Block([], SubstBody(m, body), Jump(l))
  {
    hide SubstBody;
    assert SubstPhis(m, []) == [];
  }

  lemma ArmBase(f: Func, base: nat)
    requires base == ThenReg(f, 0) || base == ElseReg(f, 0)
    ensures base >= f.nextReg
  {
  }

  lemma ArmBlockReplaced(f: Func, b: Label, ctx: Reg, j: nat, base: nat, arm: Label)
    requires Ready(f, b, ctx) && j < |f.blocks[b].body| && f.blocks[b].body[j].dst.Some?
    requires (base == ThenReg(f, 0) && arm == ThenLabel(f)) || (base == ElseReg(f, 0) && arm == ElseLabel(f))
    ensures arm in WithClones(f, b, ctx, j) && arm in Before(f, b, ctx, j + 1)
    ensures SubstBlock(map[f.blocks[b].body[j].dst.value := PhiReg(f, j)], WithClones(f, b, ctx, j)[arm])
         == Before(f, b, ctx, j + 1)[arm]
  {
    hide *;
    ReadyParts(f, b, ctx);
    var body := f.blocks[b].body;
    ArmBase(f, base);
    ClonedArm(f, b, ctx, j, base, arm);
    CloneIsClone(f, b, base, j);
    ArmCodeSnoc(body, base, PhiMap(f, body, j), j);
    ArmReplaced(f, b, base, j);
    ArmBefore(f, b, ctx, j + 1, base, arm);
    SubstArm(map[body[j].dst.value := PhiReg(f, j)], ArmCode(body, base, PhiMap(f, body, j), j + 1), TailLabel(f));
  }

  lemma ReadyParts(f: Func, b: Label, ctx: Reg)
    requires Ready(f, b, ctx)
    ensures b in f.blocks && b < f.nextLabel && ctx < f.nextReg && Bounded(f) && UniqueInBlock(f.blocks[b])
    ensures BoundedBlock(f.blocks[b], f.nextReg)
    ensures forall k :: 0 <= k < |f.blocks[b].body| ==> BoundedInstr(f.blocks[b].body[k], f.nextReg)
    ensures forall k :: 0 <= k < |TermUses(f.blocks[b].term)| ==> BoundedOperand(TermUses(f.blocks[b].term)[k], f.nextReg)
  {
  }

  // ---------- Before the first and after the last iteration ----------

  lemma SubstNothing(b: Block)
    ensures SubstBlock(map[], b) == b
  {
    forall i | 0 <= i < |b.phis| ensures SubstPhi(map[], b.phis[i]) == b.phis[i] {
      assert SubstPhi(map[], b.phis[i]).incoming == b.phis[i].incoming;
    }
    forall i | 0 <= i < |b.body| ensures SubstInstr(map[], b.body[i]) == b.body[i] {
      assert SubstArgs(map[], b.body[i].args) == b.body[i].args;
    }
    assert SubstPhis(map[], b.phis) == b.phis;
    assert SubstBody(map[], b.body) == b.body;
    match b.term
    case Return(Some(_)) =>
    case _ =>
  }

  lemma BoundedLabels(f: Func)
    requires Bounded(f)
    ensures forall c :: c in f.blocks ==> c < f.nextLabel
  {
  }

  lemma SplitOffAt(blocks: map<Label, Block>, b: Label, k: nat, cond: Reg, next: Label, c: Label)
    requires b in blocks && k <= |blocks[b].body| && c in blocks && c < next
    ensures c in SplitOff(blocks, b, k, cond, next)
    ensures SplitOff(blocks, b, k, cond, next)[c] ==
      if c == b then Block(RelabelSuccs(blocks, b, next + 2)[b].phis, blocks[b].body[..k], Branch(Use(cond), next, next + 1))
      else RelabelSuccs(blocks, b, next + 2)[c]
  {
    hide Branch;
  }

  lemma RetargetAt(f: Func, b: Label, head: Block, c: Label)
    requires b in f.blocks && c in f.blocks && head.term == f.blocks[b].term && head.phis == f.blocks[b].phis
    ensures var moved := RelabelSuccs(f.blocks[b := head], b, f.nextLabel + 2);
      if c == b then moved[b].phis == Retarget(f, b, b).phis else moved[c] == Retarget(f, b, c)
  {
    hide Succs, RelabelPhis;
  }

  /** An old block before the first iteration. */
  lemma OldBefore(f: Func, b: Label, ctx: Reg, c: Label)
    requires Bounded(f) && b in f.blocks && c in f.blocks
    ensures c in Before(f, b, ctx, 0)
    ensures Before(f, b, ctx, 0)[c] ==
      if c == b then
        Block(SubstPhis(map[], Retarget(f, b, b).phis), SubstBody(map[], [CondInstr(f, ctx)]),
              Branch(Use(CondReg(f)), f.nextLabel, f.nextLabel + 1))
      else SubstBlock(map[], Retarget(f, b, c))
  {
    assert c < f.nextLabel;
    hide SubstPhis, SubstBody, SubstBlock, Retarget, Branch, BoundedBlock, ArmBlock, TailPhis, Rest;
  }

  lemma SplitElsewhere(f: Func, b: Label, ctx: Reg, c: Label)
    requires Ready(f, b, ctx) && c in f.blocks && c != b
    ensures var head := f.blocks[b].(body := [CondInstr(f, ctx)] + f.blocks[b].body);
      var x, y := SplitOff(f.blocks[b := head], b, 1, CondReg(f), f.nextLabel), Before(f, b, ctx, 0);
      c in x && c in y && x[c] == y[c]
  {
    hide *;
    ReadyParts(f, b, ctx);
    BoundedLabels(f);
    var head := f.blocks[b].(body := [CondInstr(f, ctx)] + f.blocks[b].body);
    SplitOffAt(f.blocks[b := head], b, 1, CondReg(f), f.nextLabel, c);
    RetargetAt(f, b, head, c);
    OldBefore(f, b, ctx, c);
    SubstNothing(Retarget(f, b, c));
  }

  lemma SplitKeys(f: Func, b: Label, ctx: Reg)
    requires b in f.blocks
    ensures var head := f.blocks[b].(body := [CondInstr(f, ctx)] + f.blocks[b].body);
      SplitOff(f.blocks[b := head], b, 1, CondReg(f), f.nextLabel).Keys == Before(f, b, ctx, 0).Keys
         == f.blocks.Keys + {ThenLabel(f), ElseLabel(f), TailLabel(f)}
  {
  }

  lemma SplitHead(f: Func, b: Label, ctx: Reg)
    requires Ready(f, b, ctx)
    ensures var head := f.blocks[b].(body := [CondInstr(f, ctx)] + f.blocks[b].body);
      var x, y := SplitOff(f.blocks[b := head], b, 1, CondReg(f), f.nextLabel), Before(f, b, ctx, 0);
      b in x && b in y && x[b] == y[b]
  {
    hide *;
    ReadyParts(f, b, ctx);
    var head := f.blocks[b].(body := [CondInstr(f, ctx)] + f.blocks[b].body);
    assert head.body[..1] == [CondInstr(f, ctx)];
    SplitOffAt(f.blocks[b := head], b, 1, CondReg(f), f.nextLabel, b);
    RetargetAt(f, b, head, b);
    OldBefore(f, b, ctx, b);
    SubstNothing(Block(Retarget(f, b, b).phis, [CondInstr(f, ctx)], Jump(0)));
    SubstBlockIs(map[], Block(Retarget(f, b, b).phis, [CondInstr(f, ctx)], Jump(0)));
  }

  /** The arms and the tail. */
  lemma SplitNew(f: Func, b: Label, ctx: Reg, c: Label)
    requires Ready(f, b, ctx) && (c == ThenLabel(f) || c == ElseLabel(f) || c == TailLabel(f))
    ensures var head := f.blocks[b].(body := [CondInstr(f, ctx)] + f.blocks[b].body);
      var x, y := SplitOff(f.blocks[b := head], b, 1, CondReg(f), f.nextLabel), Before(f, b, ctx, 0);
      c in x && c in y && x[c] == y[c]
  {
    var head := f.blocks[b].(body := [CondInstr(f, ctx)] + f.blocks[b].body);
    assert head.body[1..] == f.blocks[b].body;
    assert Rest(f.blocks[b].body, 0) == f.blocks[b].body;
    SubstNothing(Block([], f.blocks[b].body, f.blocks[b].term));
    hide SubstPhis, SubstBody, Bounded, UniqueInBlock, Succs;
  }

  lemma SplitIsBefore(f: Func, b: Label, ctx: Reg)
    requires Ready(f, b, ctx)
    ensures var head := f.blocks[b].(body := [CondInstr(f, ctx)] + f.blocks[b].body);
      SplitOff(f.blocks[b := head], b, 1, CondReg(f), f.nextLabel) == Before(f, b, ctx, 0)
  {
    hide *;
    BlockThere(f, b, ctx);
    var head := f.blocks[b].(body := [CondInstr(f, ctx)] + f.blocks[b].body);
    var x, y := SplitOff(f.blocks[b := head], b, 1, CondReg(f), f.nextLabel), Before(f, b, ctx, 0);
    SplitKeys(f, b, ctx);
    forall c | c in y ensures x[c] == y[c] {
      if c == ThenLabel(f) || c == ElseLabel(f) || c == TailLabel(f) {
        SplitNew(f, b, ctx, c);
      } else if c == b {
        SplitHead(f, b, ctx);
      } else {
        SplitElsewhere(f, b, ctx, c);
      }
    }
  }

  lemma BlockThere(f: Func, b: Label, ctx: Reg)
    requires Ready(f, b, ctx)
    ensures b in f.blocks
  {
  }

  /** The tail's own map leads from each PHI to itself, so remapping the terminator changes nothing. */
  lemma TailMapIdentity(f: Func, body: seq<Instr>, j: nat, t: Term)
    requires j <= |body|
    ensures SubstTerm(FollowMap(f, body, PhiReg(f, 0), j), t) == t
  {
    var m := FollowMap(f, body, PhiReg(f, 0), j);
    forall x ensures Rename(m, x) == x {
      if x in m {
        var i := FollowKey(f, body, PhiReg(f, 0), j, x);
        FollowUnique(f, body, PhiReg(f, 0), j, i);
      }
    }
  }

  lemma {:induction false} FollowUnique(f: Func, body: seq<Instr>, base: nat, j: nat, i: nat)
    requires j <= |body| && PhiReg(f, i) in FollowMap(f, body, base, j)
    ensures FollowMap(f, body, base, j)[PhiReg(f, i)] == base + 3 * i
  {
    if i != j - 1 {
      FollowUnique(f, body, base, j - 1, i);
    } else if body[j - 1].dst.None? {
      var k := FollowKey(f, body, base, j - 1, PhiReg(f, i));
    }
  }

  lemma PurgedIsDuplicated(f: Func, b: Label, ctx: Reg)
    requires b in f.blocks
    ensures var n := |f.blocks[b].body|;
      var blocks := Before(f, b, ctx, n);
      && |blocks[TailLabel(f)].body| == |Voids(f.blocks[b].body, n)|
      && blocks[TailLabel(f) := blocks[TailLabel(f)].(body := [])] == Duplicated(f, b, ctx).blocks
  {
    var n := |f.blocks[b].body|;
    assert Rest(f.blocks[b].body, n) == Voids(f.blocks[b].body, n);
  }

  lemma Plus(x: Renaming, y: Renaming, r: Reg, p: Reg)
    ensures x + y[r := p] == (x + y)[r := p]
  {
  }

  lemma RegNames(f: Func, j: nat)
    ensures ThenReg(f, j) == f.nextReg + 1 + 3 * j && ElseReg(f, j) == ThenReg(f, j) + 1 && PhiReg(f, j) == ThenReg(f, j) + 2
  {
  }

  // ---------- The pass ----------

  /** Clones every instruction of the tail into both arms. Each value gives way to a PHI in all
      its uses; the positions of the instructions without a value are returned for the purge. */
  method CloneTail(fn: Function, ifTrue: Label, ifFalse: Label, tail: Label, reMapper: Renaming,
                   ghost f: Func, ghost b: Label, ghost ctx: Reg)
    returns (newMapper: Renaming, tailMap: Renaming, toRemove: seq<nat>)
    requires Ready(f, b, ctx) && ifTrue == ThenLabel(f) && ifFalse == ElseLabel(f) && tail == TailLabel(f)
    requires fn.blocks == Before(f, b, ctx, 0) && fn.nextReg == f.nextReg + 1
    modifies fn`blocks, fn`nextReg
    ensures fn.blocks == Before(f, b, ctx, |f.blocks[b].body|)
    ensures fn.nextReg == f.nextReg + 1 + 3 * |f.blocks[b].body|
    ensures newMapper == reMapper + Replaced(f, b)
    ensures tailMap == FollowMap(f, f.blocks[b].body, PhiReg(f, 0), |f.blocks[b].body|)
    ensures toRemove == seq(|Voids(f.blocks[b].body, |f.blocks[b].body|)|, i => i)
  {
    hide *;
    BlockThere(f, b, ctx);
    ghost var body := f.blocks[b].body;
    ReplacedIs(f, b);
    var thenMap, elseMap: Renaming := map[], map[];
    tailMap, newMapper, toRemove := map[], reMapper, [];
    var pos := 0;
    ghost var j := 0;
    BeforeShape(f, b, ctx, 0);
    StartMaps(f, body, reMapper);
    while pos < |fn.blocks[tail].body|
      invariant j <= |body| && fn.nextReg == f.nextReg + 1 + 3 * j
      invariant fn.blocks == Before(f, b, ctx, j) && tail in fn.blocks
      invariant pos == |Voids(body, j)| && toRemove == seq(pos, i => i)
      invariant |fn.blocks[tail].body| == pos + |body| - j
      invariant thenMap == FollowMap(f, body, ThenReg(f, 0), j) && elseMap == FollowMap(f, body, ElseReg(f, 0), j)
      invariant tailMap == FollowMap(f, body, PhiReg(f, 0), j)
      invariant newMapper == reMapper + PhiMap(f, body, j)
      decreases |body| - j
    {
      BeforeShape(f, b, ctx, j + 1);
      Iteration(f, b, ctx, j);
      RegNames(f, j);
      var instr := fn.blocks[tail].body[pos];
      var thenName := fn.NewReg();
      var elseName := fn.NewReg();
      var phiName := fn.NewReg();
      fn.blocks := AddTo(fn.blocks, ifTrue, CloneOf(instr, thenMap, thenName));
      fn.blocks := AddTo(fn.blocks, ifFalse, CloneOf(instr, elseMap, elseName));
      if instr.dst.None? {
        toRemove := toRemove + [pos];
        pos := pos + 1;
      } else {
        var r := instr.dst.value;
        var phi := Phi(phiName, instr.ty, map[ifTrue := Use(thenName), ifFalse := Use(elseName)]);
        Plus(reMapper, PhiMap(f, body, j), r, phiName);
        newMapper := newMapper[r := phiName];
        fn.blocks := PhiFor(fn.blocks, tail, pos, phi);
        fn.blocks := ReplaceUses(fn.blocks, r, phiName);
        thenMap, elseMap, tailMap := thenMap[phiName := thenName], elseMap[phiName := elseName], tailMap[phiName := phiName];
      }
      j := j + 1;
    }
  }

  /** Duplicates one block, in place, and records in the table what replaced each value. */
  method Duplicate(fn: Function, b: Label, contextValue: Reg, reMapper: Renaming) returns (newMapper: Renaming)
    requires Ready(fn.Value(), b, Rename(reMapper, contextValue))
    modifies fn
    ensures fn.Value() == Duplicated(old(fn.Value()), b, Rename(reMapper, contextValue))
    ensures newMapper == reMapper + Replaced(old(fn.Value()), b)
  {
    hide Before, SplitOff, SplitBlocks, UniqueInBlock, Voids, Rest, Bounded, FollowMap, NameMap, Replaced;
    ghost var f := fn.Value();
    ghost var body := fn.blocks[b].body;
    var ctx := if contextValue in reMapper then reMapper[contextValue] else contextValue;
    SplitIsBefore(f, b, ctx);
    var cond := fn.NewReg();
    fn.blocks := fn.blocks[b := fn.blocks[b].(body := [Instr(Some(cond), IntTy(1), IsNull, [Use(ctx)])] + fn.blocks[b].body)];
    var ifTrue, ifFalse, tail := fn.SplitBlockAndInsertIfThenElse(b, 1, cond);
    var tailMap, toRemove;
    newMapper, tailMap, toRemove := CloneTail(fn, ifTrue, ifFalse, tail, reMapper, f, b, ctx);
    BeforeShape(f, b, ctx, |body|);
    TailMapIdentity(f, body, |body|, fn.blocks[tail].term);
    PurgedIsDuplicated(f, b, ctx);
    fn.blocks := fn.blocks[tail := fn.blocks[tail].(term := SubstTerm(tailMap, fn.blocks[tail].term))];
    fn.EraseFrom(tail, toRemove);
  }

  // ---------- Selection and the whole pass ----------

  lemma SelectMore(f: Func, seen: Riv.DefMap, targets: seq<Target>, c: Label, ctx: Reg)
    requires Bounded(f) && Riv.SeesDominators(f, seen) && Selected(f, targets)
    requires c in f.blocks && c !in Blocks(targets) && ctx in Riv.Get(seen, c)
    ensures Selected(f, targets + [Target(c, ctx)])
    ensures Blocks(targets + [Target(c, ctx)]) == Blocks(targets) + {c}
  {
    hide Bounded, Riv.SeesDominators, AvailIn;
    Riv.ReportedIsAvailable(f, seen, c, ctx);
    BlocksSnoc(targets + [Target(c, ctx)]);
    assert (targets + [Target(c, ctx)])[..|targets|] == targets;
    forall i | 0 <= i < |targets| ensures targets[i].block != c {
      assert targets[i].block in Blocks(targets);
    }
  }

  /** Selects the targets, each with an arbitrary one of the values its block sees. All of them are
      chosen before anything is rewritten. */
  method SelectTargets(f: Func, seen: Riv.DefMap, order: seq<Label>, take: Label -> bool) returns (targets: seq<Target>)
    requires Bounded(f) && Riv.SeesDominators(f, seen)
    requires (forall c :: c in order <==> c in f.blocks) && forall i, j :: 0 <= i < j < |order| ==> order[i] != order[j]
    ensures Selected(f, targets)
    ensures forall i :: 0 <= i < |targets| ==> targets[i].ctx in Riv.Get(seen, targets[i].block)
    ensures forall c :: c in Blocks(targets) <==> c in f.blocks && take(c) && c in seen && seen[c] != {}
  {
    hide Bounded, Riv.SeesDominators, Selected, AvailIn;
    targets := [];
    NothingSelected(f);
    for k := 0 to |order|
      invariant Selected(f, targets)
      invariant forall i :: 0 <= i < |targets| ==> targets[i].ctx in Riv.Get(seen, targets[i].block)
      invariant forall c :: c in Blocks(targets) <==> c in order[..k] && take(c) && c in seen && seen[c] != {}
    {
      var c := order[k];
      if take(c) {
        var values := Riv.Get(seen, c);
        if |values| != 0 {
          var ctx :| ctx in values;
          SelectMore(f, seen, targets, c, ctx);
          targets := targets + [Target(c, ctx)];
        }
      }
    }
    assert order[..|order|] == order;
  }

  lemma NothingSelected(f: Func)
    ensures Selected(f, [])
  {
  }

  lemma SelectedPrefix(f: Func, targets: seq<Target>, k: nat)
    requires Selected(f, targets) && k < |targets|
    ensures Selected(f, targets[..k]) && TargetsExist(f, targets[..k]) && TargetsExist(f, targets[..k + 1])
    ensures targets[k].block in f.blocks && targets[k].block !in Blocks(targets[..k])
    ensures targets[k].ctx < f.nextReg && AvailIn(f, targets[k].block, targets[k].ctx)
  {
    hide AvailIn;
  }

  lemma NextReady(f: Func, targets: seq<Target>, k: nat)
    requires WellFormed(f) && Selected(f, targets) && k < |targets|
    ensures TargetsExist(f, targets[..k]) && TargetsExist(f, targets[..k + 1])
    ensures var r := DuplicateAll(f, targets[..k]);
      && Ready(r.f, targets[k].block, Rename(r.remap, targets[k].ctx))
      && DuplicateAll(f, targets[..k + 1]) == NextResult(r, targets[k].block, targets[k].ctx)
  {
    hide *;
    SelectedPrefix(f, targets, k);
    var before, b, ctx := targets[..k], targets[k].block, targets[k].ctx;
    DuplicateAllThreaded(f, before);
    var r := DuplicateAll(f, before);
    ThreadedParts(f, Blocks(before), r);
    ThreadedStep(f, Blocks(before), r, b, ctx);
    AllButLast(f, targets, k);
    WellFormedReady(r.f, b);
    ReadyIs(r.f, b, Rename(r.remap, ctx));
  }

  lemma ThreadedParts(f: Func, dup: set<Label>, r: Result)
    requires Threaded(f, dup, r)
    ensures WellFormed(r.f) && f.blocks.Keys <= r.f.blocks.Keys
  {
    hide WellFormed;
  }

  lemma AllButLast(f: Func, targets: seq<Target>, k: nat)
    requires k < |targets| && TargetsExist(f, targets[..k]) && TargetsExist(f, targets[..k + 1])
    ensures targets[k].block in DuplicateAll(f, targets[..k]).f.blocks
    ensures DuplicateAll(f, targets[..k + 1]) ==
      NextResult(DuplicateAll(f, targets[..k]), targets[k].block, targets[k].ctx)
  {
    hide NextResult;
    assert targets[..k + 1][..k] == targets[..k];
    assert targets[..k + 1][k].block in f.blocks;
  }

  lemma ReadyIs(g: Func, b: Label, ctx: Reg)
    requires b in g.blocks && ctx < g.nextReg && Bounded(g) && UniqueInBlock(g.blocks[b])
    ensures Ready(g, b, ctx)
  {
  }

  lemma WellFormedReady(g: Func, b: Label)
    requires WellFormed(g) && b in g.blocks
    ensures Bounded(g) && UniqueInBlock(g.blocks[b])
  {
  }

  /** The pass on one function, given what the analysis reports. Its result is `DuplicateAll` on the
      targets it selected, and it means the same. */
  method RunOnFunction(fn: Function, seen: Riv.DefMap, order: seq<Label>, take: Label -> bool)
    returns (changed: bool, ghost targets: seq<Target>)
    requires WellFormed(fn.Value()) && Riv.SeesDominators(fn.Value(), seen)
    requires forall c :: c in order <==> c in fn.blocks
    requires forall i, j :: 0 <= i < j < |order| ==> order[i] != order[j]
    modifies fn
    ensures Selected(old(fn.Value()), targets)
    ensures forall c :: c in Blocks(targets) <==> c in old(fn.blocks) && take(c) && c in seen && seen[c] != {}
    ensures forall c :: c in old(fn.blocks) ==>
      if c in Blocks(targets) then IsSplit(old(fn.Value()), fn.Value(), c) else IsKept(old(fn.Value()), fn.Value(), c)
    ensures fn.Value() == DuplicateAll(old(fn.Value()), targets).f
    ensures WellFormed(fn.Value()) && SameMeaning(old(fn.Value()), fn.Value(), 3)
    ensures changed <==> targets != []
  {
    hide WellFormed, Riv.SeesDominators, Selected, Duplicated, Replaced, Threaded, SameMeaning, IsSplit, IsKept;
    ghost var f := fn.Value();
    assert Bounded(f) by { WellFormedParts(f, 0); }
    var chosen := SelectTargets(fn.Value(), seen, order, take);
    targets := chosen;
    var reMapper: Renaming := map[];
    SelectedExist(f, chosen);
    for k := 0 to |chosen|
      invariant TargetsExist(f, chosen[..k])
      invariant fn.Value() == DuplicateAll(f, chosen[..k]).f && reMapper == DuplicateAll(f, chosen[..k]).remap
    {
      NextReady(f, chosen, k);
      reMapper := Duplicate(fn, chosen[k].block, chosen[k].ctx, reMapper);
    }
    assert chosen[..|chosen|] == chosen;
    assert WellFormed(fn.Value()) by {
      DuplicateAllThreaded(f, chosen);
      ThreadedWellFormed(f, Blocks(chosen), DuplicateAll(f, chosen));
    }
    DuplicateAllPreserves(f, chosen);
    AllSplit(f, chosen);
    changed := chosen != [];
  }

  lemma ThreadedWellFormed(f: Func, dup: set<Label>, r: Result)
    requires Threaded(f, dup, r)
    ensures WellFormed(r.f)
  {
  }

  /** The analysis and the pass together, from the function and its dominator tree alone. */
  method AnalyseAndRun(fn: Function, analysis: Riv.Analysis, order: seq<Label>, root: Riv.DomTree, take: Label -> bool)
    returns (changed: bool)
    requires WellFormed(fn.Value()) && Riv.IsDominatorTree(fn.Value(), root)
    requires forall c :: c in order <==> c in fn.blocks
    requires forall i, j :: 0 <= i < j < |order| ==> order[i] != order[j]
    modifies fn, analysis
    ensures WellFormed(fn.Value()) && SameMeaning(old(fn.Value()), fn.Value(), 3)
    ensures forall c :: c in old(fn.blocks) ==>
      if c in Riv.Labels(root) && take(c) && (exists x :: Riv.Sees(old(fn.Value()), c, x))
      then IsSplit(old(fn.Value()), fn.Value(), c)
      else IsKept(old(fn.Value()), fn.Value(), c)
    ensures changed <==> exists c :: c in Riv.Labels(root) && take(c) && exists x :: Riv.Sees(old(fn.Value()), c, x)
  {
    hide WellFormed, SameMeaning, Riv.SeesDominators, Riv.IsDominatorTree, Riv.Sees, IsSplit, IsKept;
    ghost var f := fn.Value();
    analysis.RunOnFunction(fn.Value(), order, root);
    ghost var targets;
    changed, targets := RunOnFunction(fn, analysis.rivMap, order, take);
    TreeInFunction(f, root);
    forall c | c in f.blocks
      ensures c in Blocks(targets) <==> c in Riv.Labels(root) && take(c) && exists x :: Riv.Sees(f, c, x)
    {
      SeesSomething(f, analysis.rivMap, c);
    }
    if changed {
      assert targets[0].block in Blocks(targets);
    }
  }

  lemma SeesSomething(f: Func, m: Riv.DefMap, c: Label)
    requires forall d, x :: d in m ==> (x in m[d] <==> Riv.Sees(f, d, x))
    ensures c in m ==> (m[c] != {} <==> exists x :: Riv.Sees(f, c, x))
  {
    hide Riv.Sees;
    if c in m && m[c] != {} {
      var x :| x in m[c];
      assert Riv.Sees(f, c, x);
    }
  }

  lemma TreeInFunction(f: Func, root: Riv.DomTree)
    requires Riv.IsDominatorTree(f, root)
    ensures Riv.Labels(root) <= f.blocks.Keys
  {
  }
}
