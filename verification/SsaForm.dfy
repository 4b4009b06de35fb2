/** Well-formedness of SSA functions: unique definitions, PHI labels, and dominance of uses,
    stated over control-flow paths; and what it gives every run. */
module SsaForm {
  import opened Wrappers
  import opened Ssa

  // ---------- Names ----------

  predicate BoundedOperand(o: Operand, n: nat) {
    o.Use? ==> o.reg < n
  }

  predicate BoundedInstr(i: Instr, n: nat) {
    && (i.dst.Some? ==> i.dst.value < n)
    && forall k :: 0 <= k < |i.args| ==> BoundedOperand(i.args[k], n)
  }

  predicate BoundedPhi(p: Phi, n: nat) {
    && p.dst < n
    && forall l :: l in p.incoming ==> BoundedOperand(p.incoming[l], n)
  }

  function TermUses(t: Term): seq<Operand> {
    match t
    case Jump(_) => []
    case Switch(on, _, _) => [on]
    case Return(None) => []
    case Return(Some(o)) => [o]
  }

  predicate BoundedBlock(b: Block, n: nat) {
    && (forall i :: 0 <= i < |b.phis| ==> BoundedPhi(b.phis[i], n))
    && (forall i :: 0 <= i < |b.body| ==> BoundedInstr(b.body[i], n))
    && (forall i :: 0 <= i < |TermUses(b.term)| ==> BoundedOperand(TermUses(b.term)[i], n))
  }

  ghost predicate Bounded(f: Func) {
    && (forall r :: r in f.args ==> r < f.nextReg)
    && (forall c :: c in f.blocks ==> c < f.nextLabel && BoundedBlock(f.blocks[c], f.nextReg))
  }

  ghost predicate UniqueInBlock(b: Block) {
    && (forall i, j :: 0 <= i < j < |b.phis| ==> b.phis[i].dst != b.phis[j].dst)
    && (forall i, j :: 0 <= i < j < |b.body| && b.body[i].dst.Some? ==> b.body[i].dst != b.body[j].dst)
    && PhiDsts(b.phis) !! BodyDsts(b.body)
  }

  ghost predicate UniqueDefs(f: Func) {
    && (forall c :: c in f.blocks ==> UniqueInBlock(f.blocks[c]) && f.args !! Defs(f.blocks[c]))
    && (forall c, d :: c in f.blocks && d in f.blocks && c != d ==> Defs(f.blocks[c]) !! Defs(f.blocks[d]))
  }

  // ---------- Control flow ----------

  ghost predicate ClosedCfg(f: Func) {
    && f.entry in f.blocks
    && (forall c :: c in f.blocks ==> Succs(f.blocks[c].term) <= f.blocks.Keys)
    && (forall c :: c in f.blocks ==> f.entry !in Succs(f.blocks[c].term))
  }

  ghost predicate PhisMatchPreds(f: Func) {
    forall c, i :: c in f.blocks && 0 <= i < |f.blocks[c].phis| ==>
      f.blocks[c].phis[i].incoming.Keys == Preds(f.blocks, c)
  }

  ghost predicate IsPath(f: Func, p: seq<Label>) {
    && p != [] && p[0] == f.entry
    && (forall k :: 0 <= k < |p| ==> p[k] in f.blocks)
    && (forall k :: 0 < k < |p| ==> p[k] in Succs(f.blocks[p[k - 1]].term))
  }

  ghost predicate IsPathTo(f: Func, p: seq<Label>, c: Label) {
    IsPath(f, p) && p[|p| - 1] == c
  }

  ghost function DefinedOn(f: Func, p: seq<Label>): set<Reg>
    requires forall k :: 0 <= k < |p| ==> p[k] in f.blocks
  {
    if p == [] then {}
    else DefinedOn(f, p[..|p| - 1]) + Defs(f.blocks[p[|p| - 1]])
  }

  /** On every path to `c` the register is defined before `c` is entered. */
  ghost predicate AvailIn(f: Func, c: Label, r: Reg) {
    r in f.args || forall p :: IsPathTo(f, p, c) ==> r in DefinedOn(f, p[..|p| - 1])
  }

  ghost predicate OperandAvail(f: Func, c: Label, local: set<Reg>, o: Operand) {
    o.Use? ==> o.reg in local || AvailIn(f, c, o.reg)
  }

  /** The registers of a block that its instruction `i` may read. */
  function DefsBefore(b: Block, i: nat): set<Reg>
    requires i <= |b.body|
  {
    PhiDsts(b.phis) + BodyDsts(b.body[..i])
  }

  ghost predicate BodyUsesDominated(f: Func, c: Label, b: Block) {
    forall i, k :: 0 <= i < |b.body| && 0 <= k < |b.body[i].args| ==>
      OperandAvail(f, c, DefsBefore(b, i), b.body[i].args[k])
  }

  ghost predicate TermUsesDominated(f: Func, c: Label, b: Block) {
    forall k :: 0 <= k < |TermUses(b.term)| ==> OperandAvail(f, c, Defs(b), TermUses(b.term)[k])
  }

  /** A PHI reads its operand at the end of the incoming block. */
  ghost predicate PhiUsesDominated(f: Func, b: Block) {
    forall i, l :: 0 <= i < |b.phis| && l in b.phis[i].incoming ==>
      l in f.blocks && OperandAvail(f, l, Defs(f.blocks[l]), b.phis[i].incoming[l])
  }

  ghost predicate UsesDominated(f: Func, c: Label)
    requires c in f.blocks
  {
    && BodyUsesDominated(f, c, f.blocks[c])
    && TermUsesDominated(f, c, f.blocks[c])
    && PhiUsesDominated(f, f.blocks[c])
  }

  ghost predicate WellFormed(f: Func) {
    && Bounded(f)
    && UniqueDefs(f)
    && ClosedCfg(f)
    && PhisMatchPreds(f)
    && forall c :: c in f.blocks ==> UsesDominated(f, c)
  }

  // ---------- Dominance ----------

  ghost predicate Dominates(f: Func, d: Label, c: Label) {
    forall p :: IsPathTo(f, p, c) ==> d in p
  }

  ghost predicate StrictlyDominates(f: Func, d: Label, c: Label) {
    d != c && Dominates(f, d, c)
  }

  lemma {:induction false} DefinedOnMember(f: Func, p: seq<Label>, k: nat)
    requires forall i :: 0 <= i < |p| ==> p[i] in f.blocks
    requires k < |p|
    ensures Defs(f.blocks[p[k]]) <= DefinedOn(f, p)
  {
    if k < |p| - 1 {
      DefinedOnMember(f, p[..|p| - 1], k);
    }
  }

  lemma {:induction false} DefinedOnWitness(f: Func, p: seq<Label>, r: Reg) returns (k: nat)
    requires forall i :: 0 <= i < |p| ==> p[i] in f.blocks
    requires r in DefinedOn(f, p)
    ensures k < |p| && r in Defs(f.blocks[p[k]])
  {
    if r in Defs(f.blocks[p[|p| - 1]]) {
      k := |p| - 1;
    } else {
      k := DefinedOnWitness(f, p[..|p| - 1], r);
    }
  }

  lemma {:induction false} DefinedOnPrefix(f: Func, p: seq<Label>, k: nat)
    requires forall i :: 0 <= i < |p| ==> p[i] in f.blocks
    requires k <= |p|
    ensures DefinedOn(f, p[..k]) <= DefinedOn(f, p)
  {
    if k < |p| {
      DefinedOnPrefix(f, p[..|p| - 1], k);
      assert p[..|p| - 1][..k] == p[..k];
    } else {
      assert p[..k] == p;
    }
  }

  lemma PathPrefix(f: Func, p: seq<Label>, k: nat)
    requires IsPath(f, p) && k < |p|
    ensures IsPathTo(f, p[..k + 1], p[k])
  {
  }

  /** A definition in a strict dominator is available. */
  lemma DominatingDefinition(f: Func, d: Label, c: Label, r: Reg)
    requires d in f.blocks && r in Defs(f.blocks[d])
    requires StrictlyDominates(f, d, c)
    ensures AvailIn(f, c, r)
  {
    forall p | IsPathTo(f, p, c) ensures r in DefinedOn(f, p[..|p| - 1]) {
      var k :| 0 <= k < |p| && p[k] == d;
      assert p[..|p| - 1][k] == d;
      DefinedOnMember(f, p[..|p| - 1], k);
    }
  }

  lemma OneDefinition(f: Func, c: Label, d: Label, r: Reg)
    requires UniqueDefs(f) && c in f.blocks && d in f.blocks && r in Defs(f.blocks[c]) && r in Defs(f.blocks[d])
    ensures c == d
  {
    hide UniqueInBlock;
  }

  /** Conversely, with unique definitions an available register of a reachable block is an argument
      or is defined in a strict dominator: path availability is exactly SSA dominance. */
  lemma AvailableIsDominated(f: Func, c: Label, r: Reg, q: seq<Label>)
    requires UniqueDefs(f) && IsPathTo(f, q, c)
    requires AvailIn(f, c, r) && r !in f.args
    ensures exists d :: d in f.blocks && r in Defs(f.blocks[d]) && StrictlyDominates(f, d, c)
  {
    var i := FirstVisit(q, c);
    PathPrefix(f, q, i);
    var first := q[..i + 1];
    assert first[..|first| - 1] == q[..i];
    assert r in DefinedOn(f, q[..i]);
    var k := DefinedOnWitness(f, q[..i], r);
    var d := q[k];
    hide UniqueDefs, DefinedOn, Defs;
    forall p | IsPathTo(f, p, c) ensures d in p {
      var j := DefinedOnWitness(f, p[..|p| - 1], r);
      OneDefinition(f, p[j], d, r);
    }
  }

  lemma {:induction false} FirstVisit(q: seq<Label>, c: Label) returns (i: nat)
    requires c in q
    ensures i < |q| && q[i] == c && c !in q[..i]
  {
    if q[0] == c {
      i := 0;
    } else {
      i := FirstVisit(q[1..], c);
      i := i + 1;
      assert q[..i] == [q[0]] + q[1..][..i - 1];
    }
  }

  /** What is available at a block is available at every block it dominates. */
  lemma AvailDown(f: Func, d: Label, c: Label, r: Reg)
    requires AvailIn(f, d, r) && Dominates(f, d, c)
    ensures AvailIn(f, c, r)
  {
    if r !in f.args {
      forall p | IsPathTo(f, p, c) ensures r in DefinedOn(f, p[..|p| - 1]) {
        var k :| 0 <= k < |p| && p[k] == d;
        PathPrefix(f, p, k);
        assert p[..k + 1][..|p[..k + 1]| - 1] == p[..k];
        assert p[..|p| - 1][..k] == p[..k];
        DefinedOnPrefix(f, p[..|p| - 1], k);
      }
    }
  }

  // ---------- Runs ----------

  lemma {:induction false} BodyDefines(w: World, env: Env, trace: seq<Event>, body: seq<Instr>)
    requires ExecBody(w, env, trace, body).Ok?
    ensures ExecBody(w, env, trace, body).env.Keys == env.Keys + BodyDsts(body)
  {
    if body != [] {
      var n := |body| - 1;
      BodyDefines(w, env, trace, body[..n]);
      assert BodyDsts(body) == BodyDsts(body[..n]) + (if body[n].dst.Some? then {body[n].dst.value} else {}) by {
        BodyDstsSnoc(body);
      }
    }
  }

  lemma BodyDstsSnoc(body: seq<Instr>)
    requires body != []
    ensures var n := |body| - 1;
            BodyDsts(body) == BodyDsts(body[..n]) + (if body[n].dst.Some? then {body[n].dst.value} else {})
  {
    var n := |body| - 1;
    assert forall i :: 0 <= i < n ==> body[..n][i] == body[i];
    forall r | r in BodyDsts(body)
      ensures r in BodyDsts(body[..n]) + (if body[n].dst.Some? then {body[n].dst.value} else {})
    {
      var i :| 0 <= i < |body| && body[i].dst.Some? && body[i].dst.value == r;
      assert i < n ==> body[..n][i].dst.Some?;
    }
  }

  lemma {:induction false} PhisDefine(env: Env, prev: Option<Label>, phis: seq<Phi>)
    requires ExecPhis(env, prev, phis).Some?
    ensures ExecPhis(env, prev, phis).value.Keys == env.Keys + PhiDsts(phis)
  {
    if phis != [] {
      var n := |phis| - 1;
      PhisDefine(env, prev, phis[..n]);
      assert PhiDsts(phis) == PhiDsts(phis[..n]) + {phis[n].dst} by {
        assert forall i :: 0 <= i < n ==> phis[..n][i] == phis[i];
        forall r | r in PhiDsts(phis) ensures r in PhiDsts(phis[..n]) + {phis[n].dst} {
          var i :| 0 <= i < |phis| && phis[i].dst == r;
          assert i < n ==> phis[..n][i].dst == r;
        }
      }
    }
  }

  /** A path that a state of a run witnesses: everything defined on it has a value. */
  ghost predicate Witnesses(f: Func, s: State, p: seq<Label>) {
    && s.At? && IsPathTo(f, p, s.cur)
    && f.args + DefinedOn(f, p[..|p| - 1]) <= s.env.Keys
    && s.prev == (if |p| == 1 then None else Some(p[|p| - 2]))
  }

  lemma {:induction false} RunHasPath(f: Func, w: World, input: Env, n: nat) returns (p: seq<Label>)
    requires ClosedCfg(f) && input.Keys == f.args
    requires Run(f, w, Init(f, input), n).At?
    ensures Witnesses(f, Run(f, w, Init(f, input), n), p)
  {
    if n == 0 {
      p := [f.entry];
    } else {
      var s := Run(f, w, Init(f, input), n - 1);
      var q := RunHasPath(f, w, input, n - 1);
      StepExtendsPath(f, w, s, q);
      p := q + [Step(f, w, s).cur];
    }
  }

  /** A step defines what its block does and follows an edge. */
  lemma StepGoes(f: Func, w: World, s: State)
    requires s.At? && s.cur in f.blocks && Step(f, w, s).At?
    ensures var t, b := Step(f, w, s), f.blocks[s.cur];
      t.cur in Succs(b.term) && t.prev == Some(s.cur) && t.env.Keys == s.env.Keys + Defs(b)
  {
    var b := f.blocks[s.cur];
    PhisDefine(s.env, s.prev, b.phis);
    var e := ExecPhis(s.env, s.prev, b.phis).value;
    BodyDefines(w, e, s.trace, b.body);
    hide ExecPhis, ExecBody, PhiDsts, BodyDsts;
  }

  lemma PathSnoc(f: Func, q: seq<Label>, l: Label)
    requires IsPath(f, q) && l in f.blocks && l in Succs(f.blocks[q[|q| - 1]].term)
    ensures IsPathTo(f, q + [l], l) && (q + [l])[..|q + [l]| - 1] == q
  {
  }

  lemma DefinedSnoc(f: Func, p: seq<Label>)
    requires p != [] && forall k :: 0 <= k < |p| ==> p[k] in f.blocks
    ensures DefinedOn(f, p) == DefinedOn(f, p[..|p| - 1]) + Defs(f.blocks[p[|p| - 1]])
  {
    hide Defs;
  }

  lemma PathParts(f: Func, p: seq<Label>)
    requires IsPath(f, p)
    ensures p != [] && forall k :: 0 <= k < |p| ==> p[k] in f.blocks
    ensures forall c :: IsPathTo(f, p, c) <==> p[|p| - 1] == c
  {
    hide Succs;
  }

  lemma EdgesInside(f: Func, c: Label)
    requires ClosedCfg(f) && c in f.blocks
    ensures Succs(f.blocks[c].term) <= f.blocks.Keys
  {
  }

  lemma WitnessPath(f: Func, s: State, p: seq<Label>)
    requires Witnesses(f, s, p)
    ensures IsPath(f, p)
  {
  }

  lemma WitnessesIs(f: Func, s: State, p: seq<Label>)
    requires forall k :: 0 <= k < |p| ==> p[k] in f.blocks
    requires p != []
    ensures Witnesses(f, s, p) <==>
      && s.At? && IsPathTo(f, p, s.cur)
      && f.args + DefinedOn(f, p[..|p| - 1]) <= s.env.Keys
      && s.prev == (if |p| == 1 then None else Some(p[|p| - 2]))
  {
    hide IsPath, DefinedOn;
  }

  lemma StepExtendsPath(f: Func, w: World, s: State, q: seq<Label>)
    requires ClosedCfg(f) && Witnesses(f, s, q)
    requires Step(f, w, s).At?
    ensures Witnesses(f, Step(f, w, s), q + [Step(f, w, s).cur])
  {
    hide *;
    WitnessPath(f, s, q);
    PathParts(f, q);
    WitnessesIs(f, s, q);
    var t := Step(f, w, s);
    StepGoes(f, w, s);
    EdgesInside(f, s.cur);
    PathSnoc(f, q, t.cur);
    var p := q + [t.cur];
    assert p[..|p| - 1] == q;
    PathParts(f, p);
    DefinedSnoc(f, q);
    WitnessesIs(f, t, p);
  }

  /** In every run that reaches a block, every register available there has a value. */
  lemma AvailableIsDefined(f: Func, w: World, input: Env, n: nat, r: Reg)
    requires ClosedCfg(f) && input.Keys == f.args
    requires Run(f, w, Init(f, input), n).At?
    requires AvailIn(f, Run(f, w, Init(f, input), n).cur, r)
    ensures r in Run(f, w, Init(f, input), n).env
  {
    var p := RunHasPath(f, w, input, n);
  }
}
