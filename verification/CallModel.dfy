/** Whole modules with calls: a machine with a call stack, and what counting instrumentation makes of
    a module. */
module CallModel {
  import opened Wrappers

  type FuncId = nat

  /** `Direct` also covers a callee behind pointer casts. `Incr` is the call of the runtime's counter
      function, `Jump` a branch within the function. */
  datatype Callee = Direct(f: FuncId) | Indirect
  datatype Inst = Call(callee: Callee) | Incr(id: nat) | Other(code: nat) | Jump(code: nat) | Ret

  type Code = seq<Inst>
  type Body = seq<Code>

  /** The functions in module order. A function without a body is only declared. */
  datatype Program = Program(order: seq<FuncId>, bodies: map<FuncId, Body>)

  // ---------- The machine ----------

  datatype Event = Enter(f: FuncId) | External(f: FuncId, direct: bool) | Exec(code: nat)

  /** What a function without a body does next: it returns, or calls back into the module. */
  datatype Outcome<D> = Back(data: D) | CallBack(data: D, f: FuncId)

  /** The meaning of everything the passes do not look at, as functions of the machine's data. */
  datatype World<!D> = World(exec: (nat, D) -> D, branch: (nat, D) -> nat, target: D -> FuncId,
                             outside: (FuncId, nat, D) -> Outcome<D>)

  /** In a function without a body, `pc` counts its calls. */
  datatype Frame = Frame(f: FuncId, block: nat, pc: nat)

  /** Counters have 64 bits. */
  const COUNTS: nat := 0x1_0000_0000_0000_0000

  /** `table` holds the counters of the runtime. */
  datatype Config<D> = Config(stack: seq<Frame>, data: D, table: seq<nat>, trace: seq<Event>)

  /** The instruction a frame is at. */
  function At(p: Program, fr: Frame): Option<Inst> {
    if fr.f in p.bodies && fr.block < |p.bodies[fr.f]| && fr.pc < |p.bodies[fr.f][fr.block]|
    then Some(p.bodies[fr.f][fr.block][fr.pc])
    else None
  }

  function Next(fr: Frame): Frame {
    fr.(pc := fr.pc + 1)
  }

  function Called(p: Program, f: FuncId, direct: bool): Event {
    if f in p.bodies then Enter(f) else External(f, direct)
  }

  /** Calls `f`; frame `fr` is where to go on. */
  function Invoke<D>(p: Program, c: Config<D>, below: seq<Frame>, fr: Frame, f: FuncId, direct: bool): Config<D> {
    c.(stack := below + [fr] + [Frame(f, 0, 0)], trace := c.trace + [Called(p, f, direct)])
  }

  function Outside<D>(p: Program, w: World<D>, c: Config<D>, below: seq<Frame>, fr: Frame): Config<D> {
    match w.outside(fr.f, fr.pc, c.data)
    case Back(data) => c.(stack := below, data := data)
    case CallBack(data, f) => Invoke(p, c.(data := data), below, Next(fr), f, false)
  }

  /** One instruction. No branch leads to the entry block, which is block 0. */
  function Step<D>(p: Program, w: World<D>, c: Config<D>): Config<D> {
    if c.stack == [] then c
    else
      var below, fr := c.stack[..|c.stack| - 1], c.stack[|c.stack| - 1];
      match At(p, fr)
      case None => if fr.f in p.bodies then c else Outside(p, w, c, below, fr)
      case Some(Call(Direct(f))) => Invoke(p, c, below, Next(fr), f, true)
      case Some(Call(Indirect)) => Invoke(p, c, below, Next(fr), w.target(c.data), false)
      case Some(Incr(id)) =>
        if id < |c.table| then c.(stack := below + [Next(fr)], table := c.table[id := (c.table[id] + 1) % COUNTS]) else c
      case Some(Other(code)) =>
        c.(stack := below + [Next(fr)], data := w.exec(code, c.data), trace := c.trace + [Exec(code)])
      case Some(Jump(code)) => c.(stack := below + [Frame(fr.f, 1 + w.branch(code, c.data), 0)])
      case Some(Ret) => c.(stack := below)
  }

  function Run<D>(p: Program, w: World<D>, c: Config<D>, n: nat): Config<D> {
    if n == 0 then c else Step(p, w, Run(p, w, c, n - 1))
  }

  /** The program starts with a call of one of its functions. */
  function Start<D>(main: FuncId, data: D, size: nat): Config<D> {
    Config([Frame(main, 0, 0)], data, seq(size, _ => 0), [Enter(main)])
  }

  // ---------- What the passes look at ----------

  /** The function that a call site names, if the instruction is one and names one. */
  function CalledFunction(i: Inst, incrCC: FuncId): Option<FuncId> {
    match i
    case Call(Direct(f)) => Some(f)
    case Incr(_) => Some(incrCC)
    case _ => None
  }

  /** Identifiers in module order. */
  function Ids(order: seq<FuncId>): map<FuncId, nat> {
    if order == [] then map[] else Ids(order[..|order| - 1])[order[|order| - 1] := |order| - 1]
  }

  ghost predicate WellFormed(p: Program) {
    && (forall i, j :: 0 <= i < j < |p.order| ==> p.order[i] != p.order[j])
    && forall f :: f in p.bodies ==> f in p.order && p.bodies[f] != []
  }

  /** The module does not call the runtime yet, and calls its own functions only. */
  ghost predicate Plain(p: Program) {
    forall f, b, k :: f in p.bodies && 0 <= b < |p.bodies[f]| && 0 <= k < |p.bodies[f][b]| ==>
      !p.bodies[f][b][k].Incr? && (p.bodies[f][b][k].Call? && p.bodies[f][b][k].callee.Direct? ==>
                                     p.bodies[f][b][k].callee.f in p.order)
  }

  /** The call sites that get an increment: direct calls of known functions without a body. */
  function Counted(ids: map<FuncId, nat>, internal: set<FuncId>, incrCC: FuncId, i: Inst): Option<nat> {
    match CalledFunction(i, incrCC)
    case None => None
    case Some(f) => if f in internal || f !in ids then None else Some(ids[f])
  }

  function Emit(ids: map<FuncId, nat>, internal: set<FuncId>, incrCC: FuncId, i: Inst): Code {
    var id := Counted(ids, internal, incrCC, i);
    if id.Some? then [Incr(id.value), i] else [i]
  }

  function EmitCode(ids: map<FuncId, nat>, internal: set<FuncId>, incrCC: FuncId, code: Code): Code {
    if code == [] then []
    else EmitCode(ids, internal, incrCC, code[..|code| - 1]) + Emit(ids, internal, incrCC, code[|code| - 1])
  }

  /** The increment for the function itself comes first in its entry block. */
  function Prefix(ids: map<FuncId, nat>, f: FuncId, block: nat): Code
    requires f in ids
  {
    if block == 0 then [Incr(ids[f])] else []
  }

  /** The walk over the instructions comes to that increment too. */
  function EmitBody(ids: map<FuncId, nat>, internal: set<FuncId>, incrCC: FuncId, f: FuncId, body: Body): (r: Body)
    requires f in ids
    ensures |r| == |body|
  {
    seq(|body|, b requires 0 <= b < |body| => EmitCode(ids, internal, incrCC, Prefix(ids, f, b) + body[b]))
  }

  function Instrumented(p: Program, incrCC: FuncId): Program
    requires forall f :: f in p.bodies ==> f in Ids(p.order)
  {
    p.(bodies := map f | f in p.bodies :: EmitBody(Ids(p.order), p.bodies.Keys, incrCC, f, p.bodies[f]))
  }

  lemma {:induction false} IdsOfOrder(order: seq<FuncId>)
    requires forall i, j :: 0 <= i < j < |order| ==> order[i] != order[j]
    ensures Ids(order).Keys == set f | f in order
    ensures forall i :: 0 <= i < |order| ==> Ids(order)[order[i]] == i
  {
    if order != [] {
      var n := |order| - 1;
      IdsOfOrder(order[..n]);
      assert forall i :: 0 <= i < n ==> order[..n][i] == order[i];
      assert order == order[..n] + [order[n]];
    }
  }

  lemma {:induction false} EmitAppend(ids: map<FuncId, nat>, internal: set<FuncId>, incrCC: FuncId, x: Code, y: Code)
    ensures EmitCode(ids, internal, incrCC, x + y) == EmitCode(ids, internal, incrCC, x) + EmitCode(ids, internal, incrCC, y)
    decreases |y|
  {
    hide Emit;
    if y == [] {
      assert x + y == x;
    } else {
      assert (x + y)[..|x + y| - 1] == x + y[..|y| - 1];
      EmitAppend(ids, internal, incrCC, x, y[..|y| - 1]);
    }
  }

  /** The increment at the entry is a call of the runtime: it is left alone if that has no identifier. */
  lemma EmitPrefix(ids: map<FuncId, nat>, internal: set<FuncId>, incrCC: FuncId, f: FuncId, b: nat, code: Code)
    requires f in ids
    ensures EmitCode(ids, internal, incrCC, Prefix(ids, f, b) + code) ==
      (if b == 0 then Emit(ids, internal, incrCC, Incr(ids[f])) else []) + EmitCode(ids, internal, incrCC, code)
  {
    hide Emit;
    EmitAppend(ids, internal, incrCC, Prefix(ids, f, b), code);
    if b == 0 {
      assert [Incr(ids[f])][..0] == [];
      assert EmitCode(ids, internal, incrCC, [Incr(ids[f])]) == [] + Emit(ids, internal, incrCC, Incr(ids[f]));
    }
  }
}
