/** Duplicating one block preserves meaning: the old function and the new one run in step, one old
    block step matching one new step, or three at the duplicated block. */
module DuplicationSim {
  import opened Wrappers
  import opened Ssa
  import opened SsaForm
  import opened Duplication

  /** The new environment holds every old register under its new name. */
  ghost predicate Related(m: Renaming, n: nat, env: Env, env': Env) {
    forall r {:trigger Rename(m, r)} :: 0 <= r < n ==>
      (r in env <==> Rename(m, r) in env') && (r in env ==> env[r] == env'[Rename(m, r)])
  }

  ghost predicate OutcomeRelated(m: Renaming, n: nat, o: Outcome, o': Outcome) {
    match o
    case Ok(e, t) => o'.Ok? && o'.trace == t && Related(m, n, e, o'.env)
    case Fail(t) => o' == o
  }

  /** The renaming leaves `d` alone and gives its name to no other register. */
  ghost predicate Fixes(m: Renaming, n: nat, d: Reg) {
    && Rename(m, d) == d
    && forall r :: 0 <= r < n && r != d ==> Rename(m, r) != d
  }

  lemma ArgsRelated(m: Renaming, n: nat, env: Env, env': Env, args: seq<Operand>)
    requires Related(m, n, env, env')
    requires forall k :: 0 <= k < |args| ==> BoundedOperand(args[k], n)
    ensures EvalArgs(env, args) == EvalArgs(env', SubstArgs(m, args))
  {
    var args' := SubstArgs(m, args);
    forall k | 0 <= k < |args| ensures EvalOperand(env, args[k]) == EvalOperand(env', args'[k]) {
      assert BoundedOperand(args[k], n);
    }
    if EvalArgs(env, args).Some? {
      assert EvalArgs(env, args).value == EvalArgs(env', args').value;
    }
  }

  /** `m'` is `m`, except that the result of the instruction is now named by `dst'`. */
  lemma InstrRelated(w: World, m: Renaming, m': Renaming, n: nat, env: Env, env': Env, trace: seq<Event>,
                     i: Instr, i': Instr)
    requires Related(m, n, env, env') && BoundedInstr(i, n)
    requires i'.op == i.op && i'.ty == i.ty && i'.args == SubstArgs(m, i.args)
    requires i'.dst.Some? <==> i.dst.Some?
    requires forall r :: 0 <= r < n ==> Rename(m', r) == if i.dst == Some(r) then i'.dst.value else Rename(m, r)
    requires i.dst.Some? ==> forall r :: 0 <= r < n && r != i.dst.value ==> Rename(m, r) != i'.dst.value
    ensures OutcomeRelated(m', n, ExecInstr(w, env, trace, i), ExecInstr(w, env', trace, i'))
  {
    ArgsRelated(m, n, env, env', i.args);
  }

  lemma {:induction false} BodyRelated(w: World, m: Renaming, n: nat, env: Env, env': Env, trace: seq<Event>, body: seq<Instr>)
    requires Related(m, n, env, env')
    requires forall i :: 0 <= i < |body| ==> BoundedInstr(body[i], n)
    requires forall i :: 0 <= i < |body| && body[i].dst.Some? ==> Fixes(m, n, body[i].dst.value)
    ensures OutcomeRelated(m, n, ExecBody(w, env, trace, body), ExecBody(w, env', trace, SubstBody(m, body)))
  {
    if body != [] {
      var k := |body| - 1;
      BodyRelated(w, m, n, env, env', trace, body[..k]);
      assert SubstBody(m, body)[..k] == SubstBody(m, body[..k]);
      var o, o' := ExecBody(w, env, trace, body[..k]), ExecBody(w, env', trace, SubstBody(m, body[..k]));
      if o.Ok? {
        InstrRelated(w, m, m, n, o.env, o'.env, o.trace, body[k], SubstInstr(m, body[k]));
      }
    }
  }

  ghost predicate EdgeRelated(m: Renaming, n: nat, p: Phi, p': Phi, prev: Option<Label>, prev': Option<Label>) {
    && p'.dst == p.dst
    && (prev.Some? <==> prev'.Some?)
    && (prev.Some? ==>
      && (prev.value in p.incoming <==> prev'.value in p'.incoming)
      && (prev.value in p.incoming ==>
        && BoundedOperand(p.incoming[prev.value], n)
        && p'.incoming[prev'.value] == SubstOperand(m, p.incoming[prev.value])))
  }

  lemma {:induction false} PhisRelated(m: Renaming, n: nat, env: Env, env': Env, prev: Option<Label>, prev': Option<Label>,
                    phis: seq<Phi>, phis': seq<Phi>)
    requires Related(m, n, env, env') && |phis'| == |phis|
    requires forall i :: 0 <= i < |phis| ==> EdgeRelated(m, n, phis[i], phis'[i], prev, prev')
    requires forall i :: 0 <= i < |phis| ==> Fixes(m, n, phis[i].dst)
    ensures ExecPhis(env, prev, phis).Some? <==> ExecPhis(env', prev', phis').Some?
    ensures ExecPhis(env, prev, phis).Some? ==>
      Related(m, n, ExecPhis(env, prev, phis).value, ExecPhis(env', prev', phis').value)
  {
    if phis != [] {
      var k := |phis| - 1;
      PhisRelated(m, n, env, env', prev, prev', phis[..k], phis'[..k]);
      assert EdgeRelated(m, n, phis[k], phis'[k], prev, prev');
      assert Fixes(m, n, phis[k].dst);
    }
  }

  lemma TermRelated(m: Renaming, n: nat, env: Env, env': Env, trace: seq<Event>, t: Term, cur: Label, cur': Label)
    requires Related(m, n, env, env')
    requires forall i :: 0 <= i < |TermUses(t)| ==> BoundedOperand(TermUses(t)[i], n)
    ensures var s, s' := ExecTerm(t, cur, env, trace), ExecTerm(SubstTerm(m, t), cur', env', trace);
      if s.At? then s.cur in Succs(t) && s'.At? && s'.cur == s.cur && s.prev == Some(cur) && s'.prev == Some(cur')
                    && s'.trace == s.trace && Related(m, n, s.env, s'.env)
      else s' == s
  {
    match t
    case Switch(on, _, _) =>
      assert BoundedOperand(TermUses(t)[0], n);
      assert EvalOperand(env, on) == EvalOperand(env', SubstOperand(m, on));
    case Return(Some(o)) =>
      assert BoundedOperand(TermUses(t)[0], n);
      assert EvalOperand(env, o) == EvalOperand(env', SubstOperand(m, o));
    case _ =>
  }

  // ---------- The names chosen by one duplication ----------

  /** `base` starts the names of one of the two arms. */
  predicate IsArm(f: Func, base: nat, arm: Label) {
    || (base == ThenReg(f, 0) && arm == ThenLabel(f))
    || (base == ElseReg(f, 0) && arm == ElseLabel(f))
  }

  lemma ReplacedFixes(f: Func, b: Label, d: Reg)
    requires b in f.blocks && d < f.nextReg && d !in BodyDsts(f.blocks[b].body)
    ensures Fixes(Replaced(f, b), f.nextReg, d)
  {
    var body := f.blocks[b].body;
    var m := Replaced(f, b);
    NameMapKeys(body, PhiReg(f, 0), |body|);
    assert body[..|body|] == body;
    forall r | 0 <= r < f.nextReg && r != d ensures Rename(m, r) != d {
      if r in m {
        var i := NameMapValue(body, PhiReg(f, 0), |body|, r);
      }
    }
  }

  lemma CloneNameIsNew(f: Func, b: Label, base: nat, arm: Label, j: nat, r: Reg)
    requires b in f.blocks && j < |f.blocks[b].body| && IsArm(f, base, arm) && r < f.nextReg
    ensures Rename(Replaced(f, b) + NameMap(f.blocks[b].body, base, j), r) != base + 3 * j
  {
    var body := f.blocks[b].body;
    var m := Replaced(f, b) + NameMap(body, base, j);
    if r in NameMap(body, base, j) {
      var i := NameMapValue(body, base, j, r);
    } else if r in Replaced(f, b) {
      var i := NameMapValue(body, PhiReg(f, 0), |body|, r);
      assert m[r] == f.nextReg + 3 + 3 * i;
    }
  }

  // ---------- One arm ----------

  /** One more instruction: its clone reads the clones before it and keeps the relation. */
  lemma CloneRelated(w: World, f: Func, b: Label, base: nat, arm: Label, j: nat, env: Env, env': Env, trace: seq<Event>)
    requires b in f.blocks && IsArm(f, base, arm) && j < |f.blocks[b].body|
    requires BoundedInstr(f.blocks[b].body[j], f.nextReg)
    requires Related(Replaced(f, b) + NameMap(f.blocks[b].body, base, j), f.nextReg, env, env')
    ensures var body := f.blocks[b].body;
      OutcomeRelated(Replaced(f, b) + NameMap(body, base, j + 1), f.nextReg,
        ExecInstr(w, env, trace, body[j]), ExecInstr(w, env', trace, Clone(body, base, Replaced(f, b), j)))
  {
    var body, n := f.blocks[b].body, f.nextReg;
    var m, m' := Replaced(f, b) + NameMap(body, base, j), Replaced(f, b) + NameMap(body, base, j + 1);
    forall r | 0 <= r < n ensures Rename(m, r) != base + 3 * j {
      CloneNameIsNew(f, b, base, arm, j, r);
    }
    InstrRelated(w, m, m', n, env, env', trace, body[j], Clone(body, base, Replaced(f, b), j));
  }

  lemma {:induction false} ArmRelated(w: World, f: Func, b: Label, base: nat, arm: Label,
                   env: Env, env': Env, trace: seq<Event>, j: nat)
    requires b in f.blocks && IsArm(f, base, arm) && j <= |f.blocks[b].body|
    requires BoundedBlock(f.blocks[b], f.nextReg)
    requires Related(Replaced(f, b), f.nextReg, env, env')
    ensures var body := f.blocks[b].body;
      OutcomeRelated(Replaced(f, b) + NameMap(body, base, j), f.nextReg,
        ExecBody(w, env, trace, body[..j]),
        ExecBody(w, env', trace, ArmCode(body, base, Replaced(f, b), j)))
  {
    var body := f.blocks[b].body;
    var outer := Replaced(f, b);
    if j == 0 {
      assert outer + NameMap(body, base, 0) == outer;
    } else {
      ArmRelated(w, f, b, base, arm, env, env', trace, j - 1);
      var code := ArmCode(body, base, outer, j);
      assert code[..j - 1] == ArmCode(body, base, outer, j - 1);
      assert body[..j][..j - 1] == body[..j - 1];
      var o, o' := ExecBody(w, env, trace, body[..j - 1]), ExecBody(w, env', trace, code[..j - 1]);
      if o.Ok? {
        CloneRelated(w, f, b, base, arm, j - 1, o.env, o'.env, o.trace);
      }
    }
  }

  // ---------- The tail ----------

  /** The merging PHIs copy the clones of the arm that was taken. */
  lemma {:induction false} TailPhisCopy(f: Func, body: seq<Instr>, base: nat, arm: Label, env: Env, j: nat)
    requires j <= |body| && IsArm(f, base, arm)
    requires forall i :: 0 <= i < j && body[i].dst.Some? ==> base + 3 * i in env
    ensures ExecPhis(env, Some(arm), TailPhis(f, body, j)).Some?
    ensures var e := ExecPhis(env, Some(arm), TailPhis(f, body, j)).value;
      && (forall x :: 0 <= x < f.nextReg ==> (x in e <==> x in env) && (x in env ==> e[x] == env[x]))
      && (forall i :: 0 <= i < j && body[i].dst.Some? ==> PhiReg(f, i) in e && e[PhiReg(f, i)] == env[base + 3 * i])
  {
    if j > 0 {
      TailPhisCopy(f, body, base, arm, env, j - 1);
      if body[j - 1].dst.Some? {
        var phis := TailPhis(f, body, j);
        assert phis[..|phis| - 1] == TailPhis(f, body, j - 1);
        assert phis[|phis| - 1].incoming[arm] == Use(base + 3 * (j - 1));
      }
    }
  }

  lemma ClonesAreBound(f: Func, b: Label, base: nat, arm: Label, env: Env, env': Env)
    requires b in f.blocks && IsArm(f, base, arm)
    requires BoundedBlock(f.blocks[b], f.nextReg) && UniqueInBlock(f.blocks[b])
    requires var body := f.blocks[b].body;
      && Related(Replaced(f, b) + NameMap(body, base, |body|), f.nextReg, env, env')
      && BodyDsts(body) <= env.Keys
    ensures var body := f.blocks[b].body;
      forall i :: 0 <= i < |body| && body[i].dst.Some? ==>
        && body[i].dst.value in env
        && base + 3 * i in env' && env'[base + 3 * i] == env[body[i].dst.value]
  {
    var body := f.blocks[b].body;
    var m := Replaced(f, b) + NameMap(body, base, |body|);
    forall i | 0 <= i < |body| && body[i].dst.Some?
      ensures body[i].dst.value in env
      ensures base + 3 * i in env' && env'[base + 3 * i] == env[body[i].dst.value]
    {
      NameMapAt(f.blocks[b], base, |body|, i);
      assert BoundedInstr(body[i], f.nextReg);
      BodyDstsAt(body, i);
      assert Rename(m, body[i].dst.value) == base + 3 * i;
    }
  }

  lemma TailRelated(f: Func, b: Label, base: nat, arm: Label, env: Env, env': Env)
    requires b in f.blocks && IsArm(f, base, arm)
    requires BoundedBlock(f.blocks[b], f.nextReg) && UniqueInBlock(f.blocks[b])
    requires var body := f.blocks[b].body;
      && Related(Replaced(f, b) + NameMap(body, base, |body|), f.nextReg, env, env')
      && BodyDsts(body) <= env.Keys
    ensures var body := f.blocks[b].body;
      && ExecPhis(env', Some(arm), TailPhis(f, body, |body|)).Some?
      && Related(Replaced(f, b), f.nextReg, env, ExecPhis(env', Some(arm), TailPhis(f, body, |body|)).value)
  {
    var body := f.blocks[b].body;
    var m, a := Replaced(f, b), NameMap(body, base, |body|);
    ClonesAreBound(f, b, base, arm, env, env');
    TailPhisCopy(f, body, base, arm, env', |body|);
    NameMapKeys(body, base, |body|);
    NameMapKeys(body, PhiReg(f, 0), |body|);
    var e := ExecPhis(env', Some(arm), TailPhis(f, body, |body|)).value;
    forall r | 0 <= r < f.nextReg
      ensures (r in env <==> Rename(m, r) in e) && (r in env ==> env[r] == e[Rename(m, r)])
    {
      if r in m {
        var i := NameMapValue(body, PhiReg(f, 0), |body|, r);
        assert m[r] == PhiReg(f, i);
      } else {
        assert Rename(m + a, r) == r;
      }
    }
  }

  // ---------- One step ----------

  function NewPrev(f: Func, b: Label, prev: Option<Label>): Option<Label> {
    if prev == Some(b) then Some(TailLabel(f)) else prev
  }

  /** Between blocks the two functions are at the same block of the old function. */
  ghost predicate StateRelated(f: Func, b: Label, s: State, s': State)
    requires b in f.blocks
  {
    if s.At? then
      && s'.At? && s'.cur == s.cur && s.cur in f.blocks
      && (s.prev.Some? ==> s.prev.value in Preds(f.blocks, s.cur))
      && s'.prev == NewPrev(f, b, s.prev)
      && s'.trace == s.trace
      && Related(Replaced(f, b), f.nextReg, s.env, s'.env)
    else s' == s
  }

  lemma RetargetEdges(f: Func, b: Label, c: Label, prev: Option<Label>)
    requires WellFormed(f) && b in f.blocks && c in f.blocks
    requires prev.Some? ==> prev.value in Preds(f.blocks, c)
    ensures var m := Replaced(f, b);
      var phis, phis' := f.blocks[c].phis, SubstPhis(m, Retarget(f, b, c).phis);
      && |phis'| == |phis|
      && (forall i :: 0 <= i < |phis| ==> EdgeRelated(m, f.nextReg, phis[i], phis'[i], prev, NewPrev(f, b, prev)))
      && (forall i :: 0 <= i < |phis| ==> Fixes(m, f.nextReg, phis[i].dst))
  {
    var m := Replaced(f, b);
    var phis, phis' := f.blocks[c].phis, SubstPhis(m, Retarget(f, b, c).phis);
    assert BoundedBlock(f.blocks[c], f.nextReg);
    forall i | 0 <= i < |phis|
      ensures EdgeRelated(m, f.nextReg, phis[i], phis'[i], prev, NewPrev(f, b, prev))
      ensures Fixes(m, f.nextReg, phis[i].dst)
    {
      assert BoundedPhi(phis[i], f.nextReg);
      assert phis[i].dst in Defs(f.blocks[c]);
      assert phis[i].dst !in BodyDsts(f.blocks[b].body);
      ReplacedFixes(f, b, phis[i].dst);
    }
  }

  lemma RelatedIs(f: Func, b: Label, s: State, s': State)
    requires b in f.blocks
    ensures StateRelated(f, b, s, s') <==>
      if s.At? then
        && s'.At? && s'.cur == s.cur && s.cur in f.blocks
        && (s.prev.Some? ==> s.prev.value in Preds(f.blocks, s.cur))
        && s'.prev == NewPrev(f, b, s.prev)
        && s'.trace == s.trace
        && Related(Replaced(f, b), f.nextReg, s.env, s'.env)
      else s' == s
  {
    hide Preds, Related, Replaced, NewPrev;
  }

  lemma BlockFacts(f: Func, c: Label)
    requires WellFormed(f) && c in f.blocks
    ensures Bounded(f) && c < f.nextLabel
    ensures forall i :: 0 <= i < |f.blocks[c].body| ==> BoundedInstr(f.blocks[c].body[i], f.nextReg)
    ensures forall i :: 0 <= i < |TermUses(f.blocks[c].term)| ==> BoundedOperand(TermUses(f.blocks[c].term)[i], f.nextReg)
  {
    assert BoundedBlock(f.blocks[c], f.nextReg);
    hide UniqueDefs, ClosedCfg, PhisMatchPreds, UsesDominated;
  }

  lemma BlockStep(f: Func, w: World, s: State)
    requires s.At? && s.cur in f.blocks
    ensures var B := f.blocks[s.cur];
      var e := ExecPhis(s.env, s.prev, B.phis);
      Step(f, w, s) ==
        if e.None? then Stuck(s.trace)
        else
          match ExecBody(w, e.value, s.trace, B.body)
          case Fail(t) => Stuck(t)
          case Ok(e, t) => ExecTerm(B.term, s.cur, e, t)
  {
    hide ExecPhis, ExecBody, ExecTerm;
  }

  lemma OutcomeIs(m: Renaming, n: nat, o: Outcome, o': Outcome)
    requires OutcomeRelated(m, n, o, o')
    ensures if o.Ok? then o'.Ok? && o'.trace == o.trace && Related(m, n, o.env, o'.env) else o' == o
  {
    hide Related;
  }

  lemma RetargetIs(f: Func, b: Label, c: Label, m: Renaming)
    requires b in f.blocks && c in f.blocks
    ensures SubstBlock(m, Retarget(f, b, c)) ==
      Block(SubstPhis(m, Retarget(f, b, c).phis), SubstBody(m, f.blocks[c].body), SubstTerm(m, f.blocks[c].term))
  {
    hide SubstPhis, SubstBody, SubstTerm;
  }

  /** Values of other blocks keep their names. */
  lemma OtherFixes(f: Func, b: Label, c: Label)
    requires WellFormed(f) && b in f.blocks && c in f.blocks && c != b
    ensures forall i :: 0 <= i < |f.blocks[c].body| && f.blocks[c].body[i].dst.Some? ==>
      Fixes(Replaced(f, b), f.nextReg, f.blocks[c].body[i].dst.value)
  {
    BlockFacts(f, c);
    OwnDefs(f, b, c);
    hide WellFormed, Fixes, Replaced, BodyDsts;
    var body := f.blocks[c].body;
    forall i | 0 <= i < |body| && body[i].dst.Some? ensures Fixes(Replaced(f, b), f.nextReg, body[i].dst.value) {
      BodyDstsAt(body, i);
      assert BoundedInstr(body[i], f.nextReg);
      ReplacedFixes(f, b, body[i].dst.value);
    }
  }

  lemma OwnDefs(f: Func, b: Label, c: Label)
    requires WellFormed(f) && b in f.blocks && c in f.blocks && c != b
    ensures BodyDsts(f.blocks[c].body) !! BodyDsts(f.blocks[b].body)
  {
    assert Defs(f.blocks[c]) !! Defs(f.blocks[b]);
  }

  /** Where the terminator of an old block leads is related to where the block that now ends it leads. */
  lemma EndRelated(f: Func, b: Label, c: Label, s: State, s': State)
    requires WellFormed(f) && b in f.blocks && c in f.blocks
    requires if s.At? then s.cur in Succs(f.blocks[c].term) && s'.At? && s'.cur == s.cur && s.prev == Some(c)
                           && s'.prev == NewPrev(f, b, Some(c)) && s'.trace == s.trace
                           && Related(Replaced(f, b), f.nextReg, s.env, s'.env)
             else s' == s
    ensures StateRelated(f, b, s, s')
  {
    hide Related, Replaced, NewPrev, Succs, Bounded, UniqueDefs, PhisMatchPreds, UsesDominated;
    if s.At? {
      assert Succs(f.blocks[c].term) <= f.blocks.Keys;
    }
  }

  lemma PrevIs(f: Func, b: Label, c: Label)
    ensures NewPrev(f, b, Some(c)) == Some(if c == b then TailLabel(f) else c)
  {
  }

  /** A block that is not the duplicated one takes one step to a related state. */
  lemma OtherBlockStep(f: Func, w: World, b: Label, ctx: Reg, s: State, s': State)
    requires WellFormed(f) && b in f.blocks
    requires StateRelated(f, b, s, s') && s.At? && s.cur != b
    ensures StateRelated(f, b, Step(f, w, s), Step(Duplicated(f, b, ctx), w, s'))
  {
    hide *;
    RelatedIs(f, b, s, s');
    BlockFacts(f, s.cur);
    BlocksAre(f, b, ctx);
    var m, n := Replaced(f, b), f.nextReg;
    var f' := Duplicated(f, b, ctx);
    var B, B' := f.blocks[s.cur], f'.blocks[s.cur];
    RetargetIs(f, b, s.cur, m);
    BlockStep(f, w, s);
    BlockStep(f', w, s');
    RetargetEdges(f, b, s.cur, s.prev);
    PhisRelated(m, n, s.env, s'.env, s.prev, s'.prev, B.phis, B'.phis);
    var e, e' := ExecPhis(s.env, s.prev, B.phis), ExecPhis(s'.env, s'.prev, B'.phis);
    if e.Some? {
      OtherFixes(f, b, s.cur);
      BodyRelated(w, m, n, e.value, e'.value, s.trace, B.body);
      var o, o' := ExecBody(w, e.value, s.trace, B.body), ExecBody(w, e'.value, s.trace, B'.body);
      OutcomeIs(m, n, o, o');
      if o.Ok? {
        TermRelated(m, n, o.env, o'.env, o.trace, B.term, s.cur, s.cur);
        PrevIs(f, b, s.cur);
      }
    }
    EndRelated(f, b, s.cur, Step(f, w, s), Step(f', w, s'));
  }

  lemma RelatedReg(m: Renaming, n: nat, env: Env, env': Env, r: Reg)
    requires Related(m, n, env, env') && r < n && r in env
    ensures Rename(m, r) in env'
  {
  }

  lemma CondCode(f: Func, m: Renaming, ctx: Reg)
    ensures var cond := SubstInstr(m, CondInstr(f, ctx));
      && SubstBody(m, [CondInstr(f, ctx)]) == [cond]
      && cond.op == IsNull && cond.args == [Use(Rename(m, ctx))] && cond.dst == Some(CondReg(f))
  {
  }

  lemma BranchStep(r: Reg, ifTrue: Label, ifFalse: Label, cur: Label, env: Env, trace: seq<Event>)
    requires r in env
    ensures ExecTerm(Branch(Use(r), ifTrue, ifFalse), cur, env, trace) ==
      At(if env[r] == 0 then ifFalse else ifTrue, Some(cur), env, trace)
  {
  }

  lemma ArmIs(f: Func, base: nat, arm: Label)
    requires (base == ThenReg(f, 0) && arm == ThenLabel(f)) || (base == ElseReg(f, 0) && arm == ElseLabel(f))
    ensures IsArm(f, base, arm)
  {
  }

  /** The state of the new function on entry to an arm. */
  lemma HeadStep(f: Func, w: World, b: Label, ctx: Reg, s: State, s': State) returns (base: nat, arm: Label)
    requires WellFormed(f) && b in f.blocks && ctx < f.nextReg
    requires StateRelated(f, b, s, s') && s.At? && s.cur == b && ctx in s.env
    ensures IsArm(f, base, arm)
    ensures var e, t := ExecPhis(s.env, s.prev, f.blocks[b].phis), Step(Duplicated(f, b, ctx), w, s');
      if e.None? then t == Stuck(s.trace)
      else t.At? && t.cur == arm && t.prev == Some(b) && t.trace == s.trace
           && Related(Replaced(f, b), f.nextReg, e.value, t.env)
  {
    hide *;
    RelatedIs(f, b, s, s');
    HeadBlock(f, b, ctx);
    var m, n := Replaced(f, b), f.nextReg;
    var f' := Duplicated(f, b, ctx);
    var B, B' := f.blocks[b], f'.blocks[b];
    BlockStep(f', w, s');
    RetargetEdges(f, b, b, s.prev);
    PhisRelated(m, n, s.env, s'.env, s.prev, s'.prev, B.phis, B'.phis);
    base, arm := ThenReg(f, 0), ThenLabel(f);
    var e, e' := ExecPhis(s.env, s.prev, B.phis), ExecPhis(s'.env, s'.prev, B'.phis);
    if e.Some? {
      PhisDefine(s.env, s.prev, B.phis);
      RelatedReg(m, n, e.value, e'.value, ctx);
      CondCode(f, m, ctx);
      var cond := SubstInstr(m, CondInstr(f, ctx));
      var v := if e'.value[Rename(m, ctx)] == 0 then 1 else 0;
      var o' := CondValue(w, e'.value, s.trace, cond, Rename(m, ctx));
      CondIsNew(f, b, e.value, e'.value, v);
      BranchStep(CondReg(f), ThenLabel(f), ElseLabel(f), b, o'.env, s.trace);
      if v == 0 {
        base, arm := ElseReg(f, 0), ElseLabel(f);
      }
    }
    ArmIs(f, base, arm);
  }

  lemma HeadBlock(f: Func, b: Label, ctx: Reg)
    requires WellFormed(f) && b in f.blocks
    ensures b < f.nextLabel && BoundedBlock(f.blocks[b], f.nextReg) && b in Duplicated(f, b, ctx).blocks
    ensures Duplicated(f, b, ctx).blocks[b] ==
      Block(SubstPhis(Replaced(f, b), Retarget(f, b, b).phis), SubstBody(Replaced(f, b), [CondInstr(f, ctx)]),
            Branch(Use(CondReg(f)), ThenLabel(f), ElseLabel(f)))
  {
  }

  /** The condition has a register of its own. */
  lemma CondIsNew(f: Func, b: Label, env: Env, env': Env, v: int)
    requires b in f.blocks && Related(Replaced(f, b), f.nextReg, env, env')
    ensures Related(Replaced(f, b), f.nextReg, env, env'[CondReg(f) := v])
  {
    var m, body := Replaced(f, b), f.blocks[b].body;
    forall r | 0 <= r < f.nextReg ensures Rename(m, r) != CondReg(f) {
      if r in m {
        var i := NameMapValue(body, PhiReg(f, 0), |body|, r);
      }
    }
  }

  lemma CondValue(w: World, env: Env, trace: seq<Event>, cond: Instr, ctx: Reg) returns (o: Outcome)
    requires cond.op == IsNull && cond.args == [Use(ctx)] && cond.dst.Some? && ctx in env
    ensures o == Ok(env[cond.dst.value := if env[ctx] == 0 then 1 else 0], trace)
    ensures ExecBody(w, env, trace, [cond]) == o
  {
    o := Ok(env[cond.dst.value := if env[ctx] == 0 then 1 else 0], trace);
    assert [cond][..0] == [];
    assert ExecBody(w, env, trace, []) == Ok(env, trace);
    assert EvalArgs(env, cond.args) == Some([env[ctx]]) by {
      assert EvalOperand(env, cond.args[0]) == Some(env[ctx]);
      assert EvalArgs(env, cond.args).value == [env[ctx]];
    }
  }

  lemma BlockWellFormed(f: Func, c: Label)
    requires WellFormed(f) && c in f.blocks
    ensures BoundedBlock(f.blocks[c], f.nextReg) && UniqueInBlock(f.blocks[c])
  {
  }

  lemma ArmBlockIs(f: Func, b: Label, base: nat, arm: Label, ctx: Reg)
    requires Bounded(f) && b in f.blocks && IsArm(f, base, arm)
    ensures var body := f.blocks[b].body;
      arm in Duplicated(f, b, ctx).blocks &&
      Duplicated(f, b, ctx).blocks[arm] == Block([], ArmCode(body, base, Replaced(f, b), |body|), Jump(TailLabel(f)))
  {
    BlocksAre(f, b, ctx);
    hide Duplicated, PhiMap, ArmCode;
  }

  lemma NoPhis(env: Env, prev: Option<Label>)
    ensures ExecPhis(env, prev, []) == Some(env)
  {
  }

  lemma NoCode(w: World, env: Env, trace: seq<Event>, m: Renaming)
    ensures ExecBody(w, env, trace, SubstBody(m, [])) == Ok(env, trace)
  {
  }

  lemma JumpStep(l: Label, cur: Label, env: Env, trace: seq<Event>)
    ensures ExecTerm(Jump(l), cur, env, trace) == At(l, Some(cur), env, trace)
  {
  }

  lemma StuckStays(f: Func, w: World, s: State)
    requires !s.At?
    ensures Step(f, w, s) == s
  {
  }

  /** From the entry of an arm, two steps bring the new function to the end of the old block. */
  lemma ArmAndTailSteps(f: Func, w: World, b: Label, ctx: Reg, env: Env, t: State, base: nat, arm: Label)
    requires WellFormed(f) && b in f.blocks && IsArm(f, base, arm)
    requires t.At? && t.cur == arm && Related(Replaced(f, b), f.nextReg, env, t.env)
    ensures var f' := Duplicated(f, b, ctx);
      var u := Step(f', w, t);
      && (u.At? ==> u.cur == TailLabel(f))
      && StateRelated(f, b,
           match ExecBody(w, env, t.trace, f.blocks[b].body)
             case Fail(tr) => Stuck(tr)
             case Ok(e, tr) => ExecTerm(f.blocks[b].term, b, e, tr),
           Step(f', w, u))
  {
    hide *;
    BlockFacts(f, b);
    BlockWellFormed(f, b);
    BlocksAre(f, b, ctx);
    ArmBlockIs(f, b, base, arm, ctx);
    var m, n := Replaced(f, b), f.nextReg;
    var f' := Duplicated(f, b, ctx);
    var B := f.blocks[b];
    ReplacedIs(f, b);
    ArmRelated(w, f, b, base, arm, env, t.env, t.trace, |B.body|);
    assert B.body[..|B.body|] == B.body;
    var code := ArmCode(B.body, base, m, |B.body|);
    var o, o' := ExecBody(w, env, t.trace, B.body), ExecBody(w, t.env, t.trace, code);
    BlockStep(f', w, t);
    NoPhis(t.env, t.prev);
    OutcomeIs(m + NameMap(B.body, base, |B.body|), n, o, o');
    var u := Step(f', w, t);
    if o.Ok? {
      JumpStep(TailLabel(f), arm, o'.env, o.trace);
      BodyDefines(w, env, t.trace, B.body);
      TailRelated(f, b, base, arm, o.env, o'.env);
      var e' := ExecPhis(u.env, u.prev, TailPhis(f, B.body, |B.body|)).value;
      NoCode(w, e', u.trace, m);
      BlockStep(f', w, u);
      TermRelated(m, n, o.env, e', o.trace, B.term, b, TailLabel(f));
      PrevIs(f, b, b);
    } else {
      StuckStays(f', w, u);
    }
    EndRelated(f, b, b, match o case Fail(tr) => Stuck(tr) case Ok(e, tr) => ExecTerm(B.term, b, e, tr), Step(f', w, u));
  }

  /** The number of new steps that match one old step. */
  function StepCost(s: State, b: Label): nat {
    if s.At? && s.cur == b then 3 else 1
  }

  /** States of the new function strictly inside a duplicated block: in an arm or at the tail. */
  predicate Inside(f: Func, s: State) {
    s.At? ==> s.cur >= f.nextLabel
  }

  lemma RunThree(f: Func, w: World, s: State)
    ensures Run(f, w, s, 1) == Step(f, w, s)
    ensures Run(f, w, s, 2) == Step(f, w, Step(f, w, s))
    ensures Run(f, w, s, 3) == Step(f, w, Step(f, w, Step(f, w, s)))
  {
    assert Run(f, w, s, 1) == Step(f, w, Run(f, w, s, 0));
    assert Run(f, w, s, 2) == Step(f, w, Run(f, w, s, 1));
  }

  /** The duplicated block takes three steps: condition, one arm, tail. */
  lemma DuplicatedBlockSteps(f: Func, w: World, b: Label, ctx: Reg, s: State, s': State)
    requires WellFormed(f) && b in f.blocks && ctx < f.nextReg
    requires StateRelated(f, b, s, s') && s.At? && s.cur == b && ctx in s.env
    ensures StateRelated(f, b, Step(f, w, s), Run(Duplicated(f, b, ctx), w, s', 3))
    ensures Inside(f, Run(Duplicated(f, b, ctx), w, s', 1))
    ensures Inside(f, Run(Duplicated(f, b, ctx), w, s', 2))
  {
    RunThree(Duplicated(f, b, ctx), w, s');
    var base, arm := HeadStep(f, w, b, ctx, s, s');
    var e := ExecPhis(s.env, s.prev, f.blocks[b].phis);
    if e.Some? {
      ArmAndTailSteps(f, w, b, ctx, e.value, Step(Duplicated(f, b, ctx), w, s'), base, arm);
    }
  }

  /** The simulation step, for a context register that is defined whenever `b` is entered. */
  lemma DuplicateStep(f: Func, w: World, b: Label, ctx: Reg, s: State, s': State)
    requires WellFormed(f) && b in f.blocks && ctx < f.nextReg
    requires StateRelated(f, b, s, s')
    requires s.At? && s.cur == b ==> ctx in s.env
    ensures StateRelated(f, b, Step(f, w, s), Run(Duplicated(f, b, ctx), w, s', StepCost(s, b)))
    ensures forall i :: 0 < i < StepCost(s, b) ==> Inside(f, Run(Duplicated(f, b, ctx), w, s', i))
  {
    if s.At? && s.cur == b {
      DuplicatedBlockSteps(f, w, b, ctx, s, s');
      forall i | 0 < i < StepCost(s, b) ensures Inside(f, Run(Duplicated(f, b, ctx), w, s', i)) {
        assert i == 1 || i == 2;
      }
    } else {
      OneStep(f, w, b, ctx, s, s');
    }
  }

  lemma OneStep(f: Func, w: World, b: Label, ctx: Reg, s: State, s': State)
    requires WellFormed(f) && b in f.blocks
    requires StateRelated(f, b, s, s') && !(s.At? && s.cur == b)
    ensures StateRelated(f, b, Step(f, w, s), Run(Duplicated(f, b, ctx), w, s', 1))
  {
    RunThree(Duplicated(f, b, ctx), w, s');
    if s.At? {
      OtherBlockStep(f, w, b, ctx, s, s');
    }
  }
}
