/** A small SSA language with PHIs, pure operations, observable effects and multi-way branches,
    its block-step semantics, and the substitutions the passes perform on it. */
module Ssa {
  import opened Wrappers
  import Bits

  type Reg = nat
  type Label = nat
  type Env = map<Reg, int>

  datatype Operand = Const(value: int) | Use(reg: Reg)

  datatype Ty = IntTy(width: nat) | PtrTy

  /** `Pure` stands for every other side-effect free operation; `Effect` for every load, store,
      allocation and call, whose answer may depend on all effects before it. */
  datatype Opcode = IsNull | Bin(bin: BinOp) | Pure(code: nat) | Effect(code: nat)

  datatype BinOp = Add | Sub | Mul | And | Xor

  /** An instruction with `dst == None` has void type. */
  datatype Instr = Instr(dst: Option<Reg>, ty: Ty, op: Opcode, args: seq<Operand>)

  datatype Phi = Phi(dst: Reg, ty: Ty, incoming: map<Label, Operand>)

  datatype Term =
    | Jump(target: Label)
    | Switch(on: Operand, cases: map<int, Label>, dflt: Label)
    | Return(result: Option<Operand>)

  datatype Block = Block(phis: seq<Phi>, body: seq<Instr>, term: Term)

  /** All registers are below `nextReg` and all labels below `nextLabel`, so that fresh names are
      at or above them. */
  datatype Func = Func(args: set<Reg>, entry: Label, blocks: map<Label, Block>,
                       nextReg: nat, nextLabel: nat)

  /** The two-way branch on an i1 value. */
  function Branch(cond: Operand, ifTrue: Label, ifFalse: Label): Term {
    Switch(cond, map[0 := ifFalse], ifTrue)
  }

  function Succs(t: Term): set<Label> {
    match t
    case Jump(l) => {l}
    case Switch(_, cases, dflt) => cases.Values + {dflt}
    case Return(_) => {}
  }

  function Preds(blocks: map<Label, Block>, c: Label): set<Label> {
    set l | l in blocks && c in Succs(blocks[l].term)
  }

  // ---------- Semantics ----------

  datatype Event = Event(code: nat, args: seq<int>)

  /** What the function cannot see: the meaning of the other pure operations, and the answer of
      the outside to an effect, given every effect so far. */
  datatype World = World(pure: (nat, seq<int>) -> Option<int>, answer: (seq<Event>, Event) -> int)

  ghost function EvalOperand(env: Env, o: Operand): Option<int> {
    match o
    case Const(n) => Some(n)
    case Use(r) => if r in env then Some(env[r]) else None
  }

  ghost function EvalArgs(env: Env, args: seq<Operand>): Option<seq<int>> {
    if forall i :: 0 <= i < |args| ==> EvalOperand(env, args[i]).Some?
    then Some(seq(|args|, i requires 0 <= i < |args| => EvalOperand(env, args[i]).value))
    else None
  }

  function Wrap(x: int, width: nat): nat {
    x % Bits.Pow2(width)
  }

  /** Arithmetic on `width`-bit integers, read as unsigned numbers. */
  function EvalBin(op: BinOp, width: nat, x: int, y: int): nat {
    var a, b := Wrap(x, width), Wrap(y, width);
    match op
    case Add => Wrap(a + b, width)
    case Sub => Wrap(a - b, width)
    case Mul => Wrap(a * b, width)
    case And => Bits.And(a, b)
    case Xor => Bits.Xor(a, b)
  }

  ghost function EvalPure(w: World, ty: Ty, op: Opcode, vals: seq<int>): Option<int> {
    match op
    case IsNull => if |vals| == 1 then Some(if vals[0] == 0 then 1 else 0) else None
    case Bin(bin) => if |vals| == 2 && ty.IntTy? then Some(EvalBin(bin, ty.width, vals[0], vals[1])) else None
    case Pure(code) => w.pure(code, vals)
    case Effect(_) => None
  }

  datatype Outcome = Ok(env: Env, trace: seq<Event>) | Fail(trace: seq<Event>)

  ghost function Assign(env: Env, dst: Option<Reg>, v: int): Env {
    if dst.Some? then env[dst.value := v] else env
  }

  /** Executes an operation on evaluated operands; the outcome of an undefined operation and of a
      read of an undefined register is `Fail`. */
  ghost function Apply(w: World, env: Env, trace: seq<Event>, i: Instr, vals: Option<seq<int>>): Outcome {
    if vals.None? then Fail(trace)
    else if i.op.Effect? then
      var ev := Event(i.op.code, vals.value);
      Ok(Assign(env, i.dst, w.answer(trace, ev)), trace + [ev])
    else
      var v := EvalPure(w, i.ty, i.op, vals.value);
      if v.None? then Fail(trace) else Ok(Assign(env, i.dst, v.value), trace)
  }

  ghost function ExecInstr(w: World, env: Env, trace: seq<Event>, i: Instr): Outcome {
    Apply(w, env, trace, i, EvalArgs(env, i.args))
  }

  ghost function ExecBody(w: World, env: Env, trace: seq<Event>, body: seq<Instr>): Outcome {
    if body == [] then Ok(env, trace)
    else
      var n := |body| - 1;
      match ExecBody(w, env, trace, body[..n])
      case Fail(t) => Fail(t)
      case Ok(e, t) => ExecInstr(w, e, t, body[n])
  }

  /** All PHIs read the environment of the edge, then all are assigned. */
  ghost function ExecPhis(env: Env, prev: Option<Label>, phis: seq<Phi>): Option<Env> {
    if phis == [] then Some(env)
    else
      var n := |phis| - 1;
      var rest := ExecPhis(env, prev, phis[..n]);
      if rest.None? || prev.None? || prev.value !in phis[n].incoming then None
      else
        var v := EvalOperand(env, phis[n].incoming[prev.value]);
        if v.None? then None else Some(rest.value[phis[n].dst := v.value])
  }

  datatype State =
    | At(cur: Label, prev: Option<Label>, env: Env, trace: seq<Event>)
    | Done(result: Option<int>, trace: seq<Event>)
    | Stuck(trace: seq<Event>)

  ghost function ExecTerm(t: Term, cur: Label, env: Env, trace: seq<Event>): State {
    match t
    case Jump(l) => At(l, Some(cur), env, trace)
    case Switch(on, cases, dflt) =>
      var v := EvalOperand(env, on);
      if v.None? then Stuck(trace)
      else At(if v.value in cases then cases[v.value] else dflt, Some(cur), env, trace)
    case Return(None) => Done(None, trace)
    case Return(Some(o)) =>
      var v := EvalOperand(env, o);
      if v.None? then Stuck(trace) else Done(v, trace)
  }

  ghost function ExecBlock(w: World, b: Block, cur: Label, prev: Option<Label>, env: Env, trace: seq<Event>): State {
    var entered := ExecPhis(env, prev, b.phis);
    if entered.None? then Stuck(trace)
    else
      match ExecBody(w, entered.value, trace, b.body)
      case Fail(t) => Stuck(t)
      case Ok(e, t) => ExecTerm(b.term, cur, e, t)
  }

  ghost function Step(f: Func, w: World, s: State): State {
    if !s.At? then s
    else if s.cur !in f.blocks then Stuck(s.trace)
    else ExecBlock(w, f.blocks[s.cur], s.cur, s.prev, s.env, s.trace)
  }

  ghost function Run(f: Func, w: World, s: State, n: nat): State {
    if n == 0 then s else Step(f, w, Run(f, w, s, n - 1))
  }

  ghost function Init(f: Func, input: Env): State {
    At(f.entry, None, input, [])
  }

  lemma {:induction false} RunAdd(f: Func, w: World, s: State, m: nat, n: nat)
    ensures Run(f, w, s, m + n) == Run(f, w, Run(f, w, s, m), n)
  {
    if n > 0 {
      RunAdd(f, w, s, m, n - 1);
    }
  }

  /** A finished run stays finished. */
  lemma {:induction false} RunFinished(f: Func, w: World, s: State, n: nat)
    requires !s.At?
    ensures Run(f, w, s, n) == s
  {
    if n > 0 {
      RunFinished(f, w, s, n - 1);
    }
  }

  // ---------- Definitions and substitution ----------

  function PhiDsts(phis: seq<Phi>): set<Reg> {
    set i | 0 <= i < |phis| :: phis[i].dst
  }

  function BodyDsts(body: seq<Instr>): set<Reg> {
    set i | 0 <= i < |body| && body[i].dst.Some? :: body[i].dst.value
  }

  function Defs(b: Block): set<Reg> {
    PhiDsts(b.phis) + BodyDsts(b.body)
  }

  type Renaming = map<Reg, Reg>

  function Rename(m: Renaming, r: Reg): Reg {
    if r in m then m[r] else r
  }

  function SubstOperand(m: Renaming, o: Operand): Operand {
    match o
    case Const(_) => o
    case Use(r) => Use(Rename(m, r))
  }

  function SubstArgs(m: Renaming, args: seq<Operand>): (r: seq<Operand>)
    ensures |r| == |args|
    ensures forall i :: 0 <= i < |args| ==> r[i] == SubstOperand(m, args[i])
  {
    seq(|args|, i requires 0 <= i < |args| => SubstOperand(m, args[i]))
  }

  function SubstInstr(m: Renaming, i: Instr): Instr {
    i.(args := SubstArgs(m, i.args))
  }

  function SubstBody(m: Renaming, body: seq<Instr>): (r: seq<Instr>)
    ensures |r| == |body|
    ensures forall i :: 0 <= i < |body| ==> r[i] == SubstInstr(m, body[i])
  {
    seq(|body|, i requires 0 <= i < |body| => SubstInstr(m, body[i]))
  }

  function SubstPhi(m: Renaming, p: Phi): Phi {
    p.(incoming := map l | l in p.incoming :: SubstOperand(m, p.incoming[l]))
  }

  function SubstPhis(m: Renaming, phis: seq<Phi>): (r: seq<Phi>)
    ensures |r| == |phis|
    ensures forall i :: 0 <= i < |phis| ==> r[i] == SubstPhi(m, phis[i])
  {
    seq(|phis|, i requires 0 <= i < |phis| => SubstPhi(m, phis[i]))
  }

  function SubstTerm(m: Renaming, t: Term): Term {
    match t
    case Jump(_) => t
    case Switch(on, _, _) => t.(on := SubstOperand(m, on))
    case Return(None) => t
    case Return(Some(o)) => Return(Some(SubstOperand(m, o)))
  }

  function SubstBlock(m: Renaming, b: Block): Block {
    Block(SubstPhis(m, b.phis), SubstBody(m, b.body), SubstTerm(m, b.term))
  }

  /** Renames one incoming label of a PHI. */
  function RelabelPhi(from: Label, to: Label, p: Phi): Phi {
    if from !in p.incoming then p
    else p.(incoming := (map l | l in p.incoming && l != from :: p.incoming[l])[to := p.incoming[from]])
  }

  function RelabelPhis(from: Label, to: Label, phis: seq<Phi>): (r: seq<Phi>)
    ensures |r| == |phis|
    ensures forall i :: 0 <= i < |phis| ==> r[i] == RelabelPhi(from, to, phis[i])
  {
    seq(|phis|, i requires 0 <= i < |phis| => RelabelPhi(from, to, phis[i]))
  }

  function RelabelBlock(from: Label, to: Label, b: Block): Block {
    b.(phis := RelabelPhis(from, to, b.phis))
  }
}
