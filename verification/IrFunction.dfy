/** A function that passes rewrite in place, with the basic operations they use on it. */
module IrFunction {
  import opened Ssa
  import opened SsaForm

  /** The PHIs in the successors of `b` name `tail` instead. */
  function RelabelSuccs(blocks: map<Label, Block>, b: Label, tail: Label): (r: map<Label, Block>)
    requires b in blocks
    ensures r.Keys == blocks.Keys
  {
    map c | c in blocks :: if c in Succs(blocks[b].term) then RelabelBlock(b, tail, blocks[c]) else blocks[c]
  }

  /** The blocks after splitting `b` before its instruction `k`, with two empty arms. */
  function SplitOff(blocks: map<Label, Block>, b: Label, k: nat, cond: Reg, next: Label): map<Label, Block>
    requires b in blocks && k <= |blocks[b].body|
  {
    var B := blocks[b];
    var tail := next + 2;
    var moved := RelabelSuccs(blocks, b, tail);
    moved[b := Block(moved[b].phis, B.body[..k], Branch(Use(cond), next, next + 1))]
         [next := Block([], [], Jump(tail))]
         [next + 1 := Block([], [], Jump(tail))]
         [tail := Block([], B.body[k..], B.term)]
  }

  lemma RelabelKeys(blocks: map<Label, Block>, b: Label, tail: Label)
    requires b in blocks
    ensures RelabelSuccs(blocks, b, tail).Keys == blocks.Keys
  {
  }

  function Remove(body: seq<Instr>, k: nat): seq<Instr>
    requires k < |body|
  {
    body[..k] + body[k + 1..]
  }

  /** A block neither defines nor reads the register. */
  ghost predicate UnusedIn(b: Block, r: Reg) {
    && r !in Defs(b) && Use(r) !in TermUses(b.term)
    && (forall i :: 0 <= i < |b.body| ==> Use(r) !in b.body[i].args)
    && (forall i, l :: 0 <= i < |b.phis| && l in b.phis[i].incoming ==> b.phis[i].incoming[l] != Use(r))
  }

  ghost predicate Unused(f: Func, r: Reg) {
    r !in f.args && forall c :: c in f.blocks ==> UnusedIn(f.blocks[c], r)
  }

  lemma NextIsUnused(f: Func)
    requires Bounded(f)
    ensures Unused(f, f.nextReg)
  {
    forall c | c in f.blocks ensures UnusedIn(f.blocks[c], f.nextReg) {
      assert BoundedBlock(f.blocks[c], f.nextReg);
      NotInBlock(f.blocks[c], f.nextReg);
    }
  }

  lemma NotInBlock(b: Block, n: nat)
    requires BoundedBlock(b, n)
    ensures UnusedIn(b, n)
  {
    forall i | 0 <= i < |b.body| ensures Use(n) !in b.body[i].args && (b.body[i].dst.Some? ==> b.body[i].dst.value != n) {
      assert BoundedInstr(b.body[i], n);
    }
    forall i | 0 <= i < |b.phis|
      ensures b.phis[i].dst != n && forall l :: l in b.phis[i].incoming ==> b.phis[i].incoming[l] != Use(n)
    {
      assert BoundedPhi(b.phis[i], n);
    }
  }

  class Function {
    var args: set<Reg>
    var entry: Label
    var blocks: map<Label, Block>
    var nextReg: nat
    var nextLabel: nat

    constructor (f: Func)
      ensures Value() == f
    {
      args, entry, blocks, nextReg, nextLabel := f.args, f.entry, f.blocks, f.nextReg, f.nextLabel;
    }

    function Value(): Func
      reads this
    {
      Func(args, entry, blocks, nextReg, nextLabel)
    }

    /** A register that nothing in the function defines or reads. */
    method NewReg() returns (r: Reg)
      modifies this`nextReg
      ensures r == old(nextReg) && nextReg == r + 1
      ensures Bounded(old(Value())) ==> Unused(old(Value()), r)
    {
      hide Unused, Bounded;
      if Bounded(Value()) {
        NextIsUnused(Value());
      }
      r := nextReg;
      nextReg := nextReg + 1;
    }

    /** Splits `b` before instruction `k`. Both arms are empty and lead to the tail, which takes over
        the terminator; PHIs of its successors name the tail. */
    method SplitBlockAndInsertIfThenElse(b: Label, k: nat, cond: Reg) returns (ifTrue: Label, ifFalse: Label, tail: Label)
      requires b in blocks && k <= |blocks[b].body|
      modifies this`blocks, this`nextLabel
      ensures ifTrue == old(nextLabel) && ifFalse == ifTrue + 1 && tail == ifTrue + 2 && nextLabel == ifTrue + 3
      ensures blocks == SplitOff(old(blocks), b, k, cond, ifTrue)
    {
      hide RelabelSuccs;
      ifTrue, ifFalse, tail := nextLabel, nextLabel + 1, nextLabel + 2;
      nextLabel := nextLabel + 3;
      var whole := blocks[b];
      RelabelKeys(blocks, b, tail);
      blocks := RelabelSuccs(blocks, b, tail);
      blocks := blocks[b := Block(blocks[b].phis, whole.body[..k], Branch(Use(cond), ifTrue, ifFalse))];
      blocks := blocks[ifTrue := Block([], [], Jump(tail))];
      blocks := blocks[ifFalse := Block([], [], Jump(tail))];
      blocks := blocks[tail := Block([], whole.body[k..], whole.term)];
    }

    /** Deletes from block `l` the instructions at the given positions, listed in increasing order. */
    method EraseFrom(l: Label, positions: seq<nat>)
      requires l in blocks && |positions| == |blocks[l].body|
      requires forall i :: 0 <= i < |positions| ==> positions[i] == i
      modifies this`blocks
      ensures blocks == old(blocks)[l := old(blocks)[l].(body := [])]
    {
      for k := |positions| downto 0
        invariant l in blocks && |blocks[l].body| == k
        invariant blocks == old(blocks)[l := old(blocks)[l].(body := blocks[l].body)]
      {
        var body := blocks[l].body;
        blocks := blocks[l := blocks[l].(body := Remove(body, positions[k]))];
      }
      assert blocks[l].body == [];
    }
  }
}
