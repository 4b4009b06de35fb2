/** The two arithmetic substitutions: 8-bit additions and subtractions of any width are replaced by
    mixed boolean-arithmetic sequences, in place, and every original register keeps its value. */
module Mba {
  import opened Wrappers
  import opened Ssa
  import opened SsaForm
  import opened BodyForm
  import opened DuplicationRuns
  import Bits
  import Modular
  import opened IrFunction

  // ---------- The identities ----------

  /** `(((a ^ b) + 2 * (a & b)) * 39 + 23) * 151 + 111` is `a + b` on 8 bits. */
  lemma AddIdentity(a: int, b: int)
    ensures
      var e2 := EvalBin(Add, 8, EvalBin(Xor, 8, a, b), EvalBin(Mul, 8, 2, EvalBin(And, 8, a, b)));
      EvalBin(Add, 8, 111, EvalBin(Mul, 8, 151, EvalBin(Add, 8, 23, EvalBin(Mul, 8, 39, e2)))) == EvalBin(Add, 8, a, b)
  {
    hide *;
    var x, y := EvalBin(Xor, 8, a, b), EvalBin(And, 8, a, b);
    AddParts(a, b);
    Eval8(2, y);
    var t := EvalBin(Mul, 8, 2, y);
    Eval8(x, t);
    var e2 := EvalBin(Add, 8, x, t);
    Eval8(39, e2);
    var e3 := EvalBin(Mul, 8, 39, e2);
    Eval8(23, e3);
    var e4 := EvalBin(Add, 8, 23, e3);
    Eval8(151, e4);
    var e5 := EvalBin(Mul, 8, 151, e4);
    Eval8(111, e5);
    CarrySum(x, y);
    AffineCancels(e2);
  }

  lemma AddParts(a: int, b: int)
    ensures var x, y := EvalBin(Xor, 8, a, b), EvalBin(And, 8, a, b);
      && x < 256 && y < 256 && EvalBin(Add, 8, a, b) == (x + 2 * y) % 256
  {
    Eval8Bits(a, b);
    Pow2Of8();
    hide *;
    Bits.XorPlusTwiceAnd(Wrap(a, 8), Wrap(b, 8));
    Bits.XorBound(Wrap(a, 8), Wrap(b, 8), 8);
  }

  lemma Eval8Bits(a: int, b: int)
    ensures EvalBin(Xor, 8, a, b) == Bits.Xor(Wrap(a, 8), Wrap(b, 8))
    ensures EvalBin(And, 8, a, b) == Bits.And(Wrap(a, 8), Wrap(b, 8))
    ensures EvalBin(Add, 8, a, b) == (Wrap(a, 8) + Wrap(b, 8)) % 256
    ensures Wrap(a, 8) < Bits.Pow2(8) && Wrap(b, 8) < Bits.Pow2(8)
  {
    Pow2Of8();
    hide Bits.Xor, Bits.And, Bits.Pow2;
  }

  lemma CarrySum(x: int, y: int)
    requires 0 <= x < 256
    ensures (x + (2 * y) % 256) % 256 == (x + 2 * y) % 256
  {
    Modular.ModSum(x, 2 * y, 256);
    SmallMod(x);
  }

  lemma SmallMod(x: int)
    requires 0 <= x < 256
    ensures x % 256 == x
  {
  }

  lemma Pow2Of8()
    ensures Bits.Pow2(8) == 256
    ensures forall x :: Wrap(x, 8) == x % 256
  {
    assert Bits.Pow2(2) == 4;
    assert Bits.Pow2(4) == 16;
    assert Bits.Pow2(6) == 64;
  }

  /** The 8-bit operations on operands in range, written with the modulus 256. */
  lemma Eval8(x: int, y: int)
    requires 0 <= x < 256 && 0 <= y < 256
    ensures EvalBin(Add, 8, x, y) == (x + y) % 256 < 256
    ensures EvalBin(Mul, 8, x, y) == (x * y) % 256 < 256
  {
    hide *;
    EvalIs(x, y);
    Pow2Of8();
    SmallMod(x);
    SmallMod(y);
  }

  lemma EvalIs(x: int, y: int)
    ensures EvalBin(Add, 8, x, y) == Wrap(Wrap(x, 8) + Wrap(y, 8), 8)
    ensures EvalBin(Mul, 8, x, y) == Wrap(Wrap(x, 8) * Wrap(y, 8), 8)
  {
    hide Wrap;
  }

  /** The two affine maps are inverse modulo 256: `39 * 151 == 1` and `23 * 151 + 111 == 0`. */
  lemma AffineCancels(e: nat)
    requires e < 256
    ensures (111 + (151 * ((23 + (39 * e) % 256) % 256)) % 256) % 256 == e
  {
    var k1, p := (39 * e) / 256, (39 * e) % 256;
    var k2, q := (23 + p) / 256, (23 + p) % 256;
    var k3, r := (151 * q) / 256, (151 * q) % 256;
    AffineLinear(e, k1, p, k2, q, k3, r);
    Modular.DivModUnique(111 + r, 23 * e + 14 - 151 * k1 - 151 * k2 - k3, e, 256);
  }

  lemma AffineLinear(e: int, k1: int, p: int, k2: int, q: int, k3: int, r: int)
    requires 39 * e == 256 * k1 + p && 23 + p == 256 * k2 + q && 151 * q == 256 * k3 + r
    ensures 111 + r == (23 * e + 14 - 151 * k1 - 151 * k2 - k3) * 256 + e
  {
  }

  /** `(a + ~b) + 1` is `a - b` at every width. */
  lemma SubIdentity(w: nat, a: int, b: int)
    ensures EvalBin(Add, w, EvalBin(Add, w, a, EvalBin(Xor, w, b, -1)), 1) == EvalBin(Sub, w, a, b)
  {
    var m := Bits.Pow2(w);
    var A: int, B: int := Wrap(a, w), Wrap(b, w);
    Modular.DivModUnique(-1, -1, m - 1, m);
    assert Wrap(-1, w) == m - 1;
    Bits.XorAllOnes(B, w);
    var c := m - 1 - B;
    assert EvalBin(Xor, w, b, -1) == c;
    hide *;
    EvalAddSub(w, m, a, c, A, c);
    var d := (A + c) % m;
    EvalAddSub(w, m, d, 1, d, 1 % m);
    Modular.ModSum(A + c, 1, m);
    Modular.ModShift(A + c + 1, A - B, m);
    EvalAddSub(w, m, a, b, A, B);
  }

  lemma EvalAddSub(w: nat, m: nat, x: int, y: int, a: int, b: int)
    requires m == Bits.Pow2(w)
    requires (0 <= a < m && a == x) || a == Wrap(x, w)
    requires (0 <= b < m && b == y) || b == Wrap(y, w) || b == y % m
    ensures EvalBin(Add, w, x, y) == (a + b) % m && EvalBin(Sub, w, x, y) == (a - b) % m
    ensures 0 <= (a + b) % m < m
  {
    Reduced(a, m);
    Reduced(b, m);
  }

  /** Sum and difference of two integers, reduced to the width. */
  lemma SumAndDifference(w: nat, x: int, y: int)
    ensures EvalBin(Add, w, x, y) == (x + y) % Bits.Pow2(w)
    ensures EvalBin(Sub, w, x, y) == (x - y) % Bits.Pow2(w)
  {
    var m, a, b := Bits.Pow2(w), Wrap(x, w), Wrap(y, w);
    assert a == x % m && b == y % m;
    hide *;
    EvalAddSub(w, m, x, y, a, b);
    Modular.ModSum(x, y, m);
    Modular.ModDifference(x, y, m);
  }

  lemma Reduced(x: int, m: nat)
    requires m > 0
    ensures 0 <= x < m ==> x % m == x
  {
    if 0 <= x < m {
      Modular.DivModUnique(x, 0, x, m);
    }
  }

  // ---------- The rewriting ----------

  datatype Kind = AddPass | SubPass

  /** The instructions a pass looks for: binary operators with a result and two operands. */
  predicate Candidate(kind: Kind, i: Instr) {
    && i.dst.Some? && |i.args| == 2
    && match kind
       case AddPass => i.op == Bin(Add) && i.ty == IntTy(8)
       case SubPass => i.op == Bin(Sub) && i.ty.IntTy?
  }

  function Temp(op: BinOp, ty: Ty, dst: Reg, x: Operand, y: Operand): Instr {
    Instr(Some(dst), ty, Bin(op), [x, y])
  }

  /** The number of temporaries that a substitution introduces. */
  function Temps(kind: Kind): nat {
    if kind == AddPass then 7 else 2
  }

  /** What is inserted before the candidate. */
  function Prelude(kind: Kind, i: Instr, base: Reg): (code: seq<Instr>)
    requires Candidate(kind, i)
    ensures |code| == Temps(kind)
  {
    var a, b, ty := i.args[0], i.args[1], i.ty;
    match kind
    case AddPass =>
      [Temp(Xor, ty, base, a, b),
       Temp(And, ty, base + 1, a, b),
       Temp(Mul, ty, base + 2, Const(2), Use(base + 1)),
       Temp(Add, ty, base + 3, Use(base), Use(base + 2)),
       Temp(Mul, ty, base + 4, Const(39), Use(base + 3)),
       Temp(Add, ty, base + 5, Const(23), Use(base + 4)),
       Temp(Mul, ty, base + 6, Const(151), Use(base + 5))]
    case SubPass =>
      [Temp(Xor, ty, base, b, Const(-1)),
       Temp(Add, ty, base + 1, a, Use(base))]
  }

  /** What takes the candidate's place; it keeps the name of the result. */
  function Final(kind: Kind, i: Instr, base: Reg): Instr
    requires Candidate(kind, i)
  {
    match kind
    case AddPass => Temp(Add, i.ty, i.dst.value, Const(111), Use(base + 6))
    case SubPass => Temp(Add, i.ty, i.dst.value, Use(base + 1), Const(1))
  }

  // ---------- What a rewritten body means ----------

  /** Both environments hold the same values in all registers below `n`. */
  ghost predicate Agree(n: nat, env: Env, env': Env) {
    forall r: Reg :: r < n ==> (r in env <==> r in env') && (r in env ==> env[r] == env'[r])
  }

  ghost predicate AgreeOutcome(n: nat, o: Outcome, o': Outcome) {
    match o
    case Ok(e, t) => o'.Ok? && o'.trace == t && Agree(n, e, o'.env)
    case Fail(t) => o' == o
  }

  /** Whatever agreeing environments they start from, the two bodies show the same effects and leave
      the same values in all registers below `n`. */
  ghost predicate Preserves(n: nat, body: seq<Instr>, body': seq<Instr>) {
    forall w: World, env: Env, env': Env, trace: seq<Event> :: Agree(n, env, env') ==>
      AgreeOutcome(n, ExecBody(w, env, trace, body), ExecBody(w, env', trace, body'))
  }

  lemma {:induction false} ExecAppend(w: World, env: Env, trace: seq<Event>, x: seq<Instr>, y: seq<Instr>)
    ensures ExecBody(w, env, trace, x + y) ==
      match ExecBody(w, env, trace, x)
      case Fail(t) => Fail(t)
      case Ok(e, t) => ExecBody(w, e, t, y)
    decreases |y|
  {
    hide ExecInstr;
    if y == [] {
      assert x + y == x;
    } else {
      var k := |y| - 1;
      ExecAppend(w, env, trace, x, y[..k]);
      assert (x + y)[..|x + y| - 1] == x + y[..k];
    }
  }

  lemma AgreeArgs(n: nat, env: Env, env': Env, args: seq<Operand>)
    requires Agree(n, env, env') && forall k :: 0 <= k < |args| ==> BoundedOperand(args[k], n)
    ensures EvalArgs(env, args) == EvalArgs(env', args)
  {
    forall k | 0 <= k < |args| ensures EvalOperand(env, args[k]) == EvalOperand(env', args[k]) {
      assert BoundedOperand(args[k], n);
    }
    if EvalArgs(env, args).Some? {
      assert EvalArgs(env, args).value == EvalArgs(env', args).value;
    }
  }

  /** Executing one more binary operation whose operands have values. */
  lemma ExecTemp(w: World, env: Env, trace: seq<Event>, c: seq<Instr>, k: nat, e: Env, op: BinOp, x: int, y: int)
    requires k < |c| && ExecBody(w, env, trace, c[..k]) == Ok(e, trace)
    requires var i := c[k];
      && i.dst.Some? && i.ty.IntTy? && i.op == Bin(op) && |i.args| == 2
      && EvalOperand(e, i.args[0]) == Some(x) && EvalOperand(e, i.args[1]) == Some(y)
    ensures ExecBody(w, env, trace, c[..k + 1]) == Ok(e[c[k].dst.value := EvalBin(op, c[k].ty.width, x, y)], trace)
  {
    hide EvalBin;
    var i := c[k];
    ExecAppend(w, env, trace, c[..k], [i]);
    assert c[..k + 1] == c[..k] + [i];
    assert [i][..0] == [];
    assert ExecBody(w, e, trace, [i]) == ExecInstr(w, e, trace, i);
    assert EvalArgs(e, i.args).value == [x, y];
  }

  lemma ExecStops(w: World, env: Env, trace: seq<Event>, c: seq<Instr>, k: nat, e: Env)
    requires k < |c| && ExecBody(w, env, trace, c[..k]) == Ok(e, trace) && EvalArgs(e, c[k].args).None?
    ensures ExecBody(w, env, trace, c) == Fail(trace)
  {
    assert c == c[..k + 1] + c[k + 1..];
    ExecAppend(w, env, trace, c[..k + 1], c[k + 1..]);
    assert c[..k + 1][..k] == c[..k];
  }

  function Let(env: Env, base: Reg, k: nat, v: int): Env {
    env[base + k := v]
  }

  /** The seven temporaries, one after the other. */
  lemma AddPrelude(w: World, env: Env, trace: seq<Event>, c: seq<Instr>, i: Instr, base: Reg, x: int, y: int)
    returns (e: Env, v: int)
    requires Candidate(AddPass, i) && |c| == 8 && c[..7] == Prelude(AddPass, i, base)
    requires BoundedOperand(i.args[0], base) && BoundedOperand(i.args[1], base)
    requires EvalOperand(env, i.args[0]) == Some(x) && EvalOperand(env, i.args[1]) == Some(y)
    ensures ExecBody(w, env, trace, c[..7]) == Ok(e, trace)
    ensures Agree(base, e, env) && base + 6 in e && e[base + 6] == v
    ensures EvalBin(Add, 8, 111, v) == EvalBin(Add, 8, x, y)
  {
    hide EvalBin, ExecBody, ExecInstr, Agree, Prelude;
    AddCode(c, i, base);
    ExecEmpty(w, env, trace);
    assert c[..0] == [];
    ExecTemp(w, env, trace, c, 0, env, Xor, x, y);
    var v0 := EvalBin(Xor, 8, x, y);
    var e0 := Let(env, base, 0, v0);
    ExecTemp(w, env, trace, c, 1, e0, And, x, y);
    var v1 := EvalBin(And, 8, x, y);
    var e1 := Let(e0, base, 1, v1);
    ExecTemp(w, env, trace, c, 2, e1, Mul, 2, v1);
    var v2 := EvalBin(Mul, 8, 2, v1);
    var e2 := Let(e1, base, 2, v2);
    ExecTemp(w, env, trace, c, 3, e2, Add, v0, v2);
    var v3 := EvalBin(Add, 8, v0, v2);
    var e3 := Let(e2, base, 3, v3);
    ExecTemp(w, env, trace, c, 4, e3, Mul, 39, v3);
    var v4 := EvalBin(Mul, 8, 39, v3);
    var e4 := Let(e3, base, 4, v4);
    ExecTemp(w, env, trace, c, 5, e4, Add, 23, v4);
    var v5 := EvalBin(Add, 8, 23, v4);
    var e5 := Let(e4, base, 5, v5);
    ExecTemp(w, env, trace, c, 6, e5, Mul, 151, v5);
    v := EvalBin(Mul, 8, 151, v5);
    e := Let(e5, base, 6, v);
    AddIdentity(x, y);
    SevenLets(env, base, v0, v1, v2, v3, v4, v5, v);
  }

  lemma SevenLets(env: Env, base: Reg, v0: int, v1: int, v2: int, v3: int, v4: int, v5: int, v6: int)
    ensures Agree(base, Let(Let(Let(Let(Let(Let(Let(env, base, 0, v0), base, 1, v1), base, 2, v2), base, 3, v3),
                        base, 4, v4), base, 5, v5), base, 6, v6), env)
  {
  }

  lemma AddCode(c: seq<Instr>, i: Instr, base: Reg)
    requires Candidate(AddPass, i) && |c| == 8 && c[..7] == Prelude(AddPass, i, base)
    ensures c[0] == Temp(Xor, i.ty, base, i.args[0], i.args[1])
    ensures c[1] == Temp(And, i.ty, base + 1, i.args[0], i.args[1])
    ensures c[2] == Temp(Mul, i.ty, base + 2, Const(2), Use(base + 1))
    ensures c[3] == Temp(Add, i.ty, base + 3, Use(base), Use(base + 2))
    ensures c[4] == Temp(Mul, i.ty, base + 4, Const(39), Use(base + 3))
    ensures c[5] == Temp(Add, i.ty, base + 5, Const(23), Use(base + 4))
    ensures c[6] == Temp(Mul, i.ty, base + 6, Const(151), Use(base + 5))
  {
    assert forall k :: 0 <= k < 7 ==> c[k] == c[..7][k];
  }

  lemma AddMeaning(w: World, env: Env, trace: seq<Event>, i: Instr, base: Reg, x: int, y: int) returns (e: Env)
    requires Candidate(AddPass, i) && (forall k :: 0 <= k < 2 ==> BoundedOperand(i.args[k], base)) && i.dst.value < base
    requires EvalOperand(env, i.args[0]) == Some(x) && EvalOperand(env, i.args[1]) == Some(y)
    ensures ExecBody(w, env, trace, Prelude(AddPass, i, base) + [Final(AddPass, i, base)]) == Ok(e, trace)
    ensures Agree(base, e, env[i.dst.value := EvalBin(Add, 8, x, y)])
    ensures i.dst.value in e && e[i.dst.value] == (x + y) % 256
  {
    SumAndDifference(8, x, y);
    Pow2Of8();
    hide EvalBin, ExecBody, ExecInstr, Prelude;
    var c := Prelude(AddPass, i, base) + [Final(AddPass, i, base)];
    assert c[..7] == Prelude(AddPass, i, base) && c[7] == Final(AddPass, i, base) && c[..8] == c;
    var e6, v := AddPrelude(w, env, trace, c, i, base, x, y);
    ExecTemp(w, env, trace, c, 7, e6, Add, 111, v);
    e := e6[i.dst.value := EvalBin(Add, 8, 111, v)];
  }

  lemma ExecEmpty(w: World, env: Env, trace: seq<Event>)
    ensures ExecBody(w, env, trace, []) == Ok(env, trace)
  {
  }

  lemma SubMeaning(w: World, env: Env, trace: seq<Event>, i: Instr, base: Reg, x: int, y: int) returns (e: Env)
    requires Candidate(SubPass, i) && (forall k :: 0 <= k < 2 ==> BoundedOperand(i.args[k], base)) && i.dst.value < base
    requires EvalOperand(env, i.args[0]) == Some(x) && EvalOperand(env, i.args[1]) == Some(y)
    ensures ExecBody(w, env, trace, Prelude(SubPass, i, base) + [Final(SubPass, i, base)]) == Ok(e, trace)
    ensures Agree(base, e, env[i.dst.value := EvalBin(Sub, i.ty.width, x, y)])
    ensures i.dst.value in e && e[i.dst.value] == (x - y) % Bits.Pow2(i.ty.width)
  {
    SumAndDifference(i.ty.width, x, y);
    hide EvalBin, ExecBody, ExecInstr;
    var c := Prelude(SubPass, i, base) + [Final(SubPass, i, base)];
    var v := i.ty.width;
    assert BoundedOperand(i.args[0], base) && BoundedOperand(i.args[1], base);
    ExecEmpty(w, env, trace);
    assert c[..0] == [];
    ExecTemp(w, env, trace, c, 0, env, Xor, y, -1);
    var e0 := env[base := EvalBin(Xor, v, y, -1)];
    ExecTemp(w, env, trace, c, 1, e0, Add, x, e0[base]);
    var e1 := e0[base + 1 := EvalBin(Add, v, x, e0[base])];
    ExecTemp(w, env, trace, c, 2, e1, Add, e1[base + 1], 1);
    e := e1[i.dst.value := EvalBin(Add, v, e1[base + 1], 1)];
    assert c[..|c|] == c;
    SubIdentity(v, x, y);
  }

  lemma UndefinedOperand(w: World, env: Env, trace: seq<Event>, kind: Kind, i: Instr, base: Reg)
    requires Candidate(kind, i) && BoundedInstr(i, base) && EvalArgs(env, i.args).None?
    ensures ExecBody(w, env, trace, Prelude(kind, i, base) + [Final(kind, i, base)]) == Fail(trace)
  {
    hide EvalBin, ExecBody, ExecInstr;
    var c := Prelude(kind, i, base) + [Final(kind, i, base)];
    var k :| 0 <= k < |i.args| && EvalOperand(env, i.args[k]).None?;
    ExecEmpty(w, env, trace);
    assert c[..0] == [];
    if kind == AddPass {
      assert c[0].args[k] == i.args[k];
      ExecStops(w, env, trace, c, 0, env);
    } else if EvalOperand(env, i.args[1]).None? {
      assert c[0].args[0] == i.args[1];
      ExecStops(w, env, trace, c, 0, env);
    } else {
      var y := EvalOperand(env, i.args[1]).value;
      ExecTemp(w, env, trace, c, 0, env, Xor, y, -1);
      var e0 := env[base := EvalBin(Xor, i.ty.width, y, -1)];
      assert BoundedOperand(i.args[0], base);
      assert c[1].args[0] == i.args[0] && EvalOperand(e0, i.args[0]).None?;
      ExecStops(w, env, trace, c, 1, e0);
    }
  }

  /** The sequence that replaces a candidate computes the candidate. */
  lemma SubstitutedMeaning(w: World, n: nat, env: Env, env': Env, trace: seq<Event>, kind: Kind, i: Instr, base: Reg)
    requires Candidate(kind, i) && BoundedInstr(i, n) && n <= base && Agree(n, env, env')
    ensures AgreeOutcome(n, ExecInstr(w, env, trace, i),
                         ExecBody(w, env', trace, Prelude(kind, i, base) + [Final(kind, i, base)]))
  {
    hide EvalBin, ExecBody;
    AgreeArgs(n, env, env', i.args);
    assert BoundedInstr(i, base) by {
      assert forall k :: 0 <= k < |i.args| && BoundedOperand(i.args[k], n) ==> BoundedOperand(i.args[k], base);
    }
    if EvalArgs(env', i.args).None? {
      UndefinedOperand(w, env', trace, kind, i, base);
    } else {
      var v := EvalArgs(env', i.args).value;
      assert EvalOperand(env', i.args[0]) == Some(v[0]) && EvalOperand(env', i.args[1]) == Some(v[1]);
      if kind == AddPass {
        var e := AddMeaning(w, env', trace, i, base, v[0], v[1]);
      } else {
        var e := SubMeaning(w, env', trace, i, base, v[0], v[1]);
      }
    }
  }

  // ---------- The pass over a block ----------

  datatype Progress = Progress(code: seq<Instr>, next: Reg, draws: nat)

  /** The addition pass draws a number for each candidate, and `pick` decides; the subtraction pass takes
      every candidate. */
  predicate Takes(kind: Kind, pick: nat -> bool, draw: nat) {
    kind == SubPass || pick(draw)
  }

  /** The code for the first `j` instructions. */
  function Rewritten(kind: Kind, body: seq<Instr>, base: Reg, pick: nat -> bool, j: nat): Progress
    requires j <= |body|
  {
    if j == 0 then Progress([], base, 0)
    else
      var p, i := Rewritten(kind, body, base, pick, j - 1), body[j - 1];
      if !Candidate(kind, i) then p.(code := p.code + [i])
      else if !Takes(kind, pick, p.draws) then p.(code := p.code + [i], draws := p.draws + 1)
      else Progress(p.code + (Prelude(kind, i, p.next) + [Final(kind, i, p.next)]), p.next + Temps(kind), p.draws + 1)
  }

  ghost predicate BoundedBody(body: seq<Instr>, n: nat) {
    forall k :: 0 <= k < |body| ==> BoundedInstr(body[k], n)
  }

  lemma {:induction false} RewrittenGrows(kind: Kind, body: seq<Instr>, base: Reg, pick: nat -> bool, j: nat)
    requires j <= |body|
    ensures base <= Rewritten(kind, body, base, pick, j).next
  {
    if j > 0 {
      RewrittenGrows(kind, body, base, pick, j - 1);
    }
  }

  lemma ExecSingle(w: World, env: Env, trace: seq<Event>, i: Instr)
    ensures ExecBody(w, env, trace, [i]) == ExecInstr(w, env, trace, i)
  {
    hide ExecInstr;
    assert [i][..0] == [];
  }

  lemma AgreeInstr(w: World, n: nat, env: Env, env': Env, trace: seq<Event>, i: Instr)
    requires BoundedInstr(i, n) && Agree(n, env, env')
    ensures AgreeOutcome(n, ExecInstr(w, env, trace, i), ExecInstr(w, env', trace, i))
  {
    AgreeArgs(n, env, env', i.args);
  }

  lemma {:induction false} RewrittenAgrees(w: World, env: Env, env': Env, trace: seq<Event>,
                                           kind: Kind, body: seq<Instr>, n: nat, base: Reg, pick: nat -> bool, j: nat)
    requires j <= |body| && BoundedBody(body, n) && n <= base && Agree(n, env, env')
    ensures AgreeOutcome(n, ExecBody(w, env, trace, body[..j]),
                         ExecBody(w, env', trace, Rewritten(kind, body, base, pick, j).code))
    decreases j
  {
    hide *;
    RewrittenCases(kind, body, base, pick, j);
    if j == 0 {
      ExecEmpty(w, env, trace);
      ExecEmpty(w, env', trace);
      AgreeOk(n, env, env', trace);
    } else {
      RewrittenAgrees(w, env, env', trace, kind, body, n, base, pick, j - 1);
      RewrittenGrows(kind, body, base, pick, j - 1);
      BoundedAt(body, n, j - 1);
      var p, i := Rewritten(kind, body, base, pick, j - 1), body[j - 1];
      assert body[..j] == body[..j - 1] + [i];
      ExecAppend(w, env, trace, body[..j - 1], [i]);
      var o, o' := ExecBody(w, env, trace, body[..j - 1]), ExecBody(w, env', trace, p.code);
      AgreeParts(n, o, o');
      var more := if Candidate(kind, i) && Takes(kind, pick, p.draws) then Prelude(kind, i, p.next) + [Final(kind, i, p.next)] else [i];
      ExecAppend(w, env', trace, p.code, more);
      if o.Ok? {
        ExecSingle(w, o.env, o.trace, i);
        if Candidate(kind, i) && Takes(kind, pick, p.draws) {
          SubstitutedMeaning(w, n, o.env, o'.env, o.trace, kind, i, p.next);
        } else {
          ExecSingle(w, o'.env, o.trace, i);
          AgreeInstr(w, n, o.env, o'.env, o.trace, i);
        }
      }
    }
  }

  lemma AgreeOk(n: nat, env: Env, env': Env, trace: seq<Event>)
    requires Agree(n, env, env')
    ensures AgreeOutcome(n, Ok(env, trace), Ok(env', trace))
  {
  }

  lemma AgreeParts(n: nat, o: Outcome, o': Outcome)
    requires AgreeOutcome(n, o, o')
    ensures if o.Ok? then o'.Ok? && o'.trace == o.trace && Agree(n, o.env, o'.env) else o' == o
  {
  }

  /** Any selection of candidates preserves every original register and every effect. */
  lemma RewritePreserves(kind: Kind, body: seq<Instr>, n: nat, pick: nat -> bool)
    requires BoundedBody(body, n)
    ensures Preserves(n, body, Rewritten(kind, body, n, pick, |body|).code)
  {
    forall w: World, env: Env, env': Env, trace: seq<Event> | Agree(n, env, env')
      ensures AgreeOutcome(n, ExecBody(w, env, trace, body),
                           ExecBody(w, env', trace, Rewritten(kind, body, n, pick, |body|).code))
    {
      hide *;
      RewrittenAgrees(w, env, env', trace, kind, body, n, n, pick, |body|);
      assert body[..|body|] == body;
    }
  }

  lemma BoundedMore(i: Instr, n: nat, n': nat)
    requires BoundedInstr(i, n) && n <= n'
    ensures BoundedInstr(i, n')
  {
    forall k | 0 <= k < |i.args| ensures BoundedOperand(i.args[k], n') {
      assert BoundedOperand(i.args[k], n);
    }
  }

  lemma SubstitutionBounded(kind: Kind, i: Instr, base: Reg)
    requires Candidate(kind, i) && BoundedInstr(i, base)
    ensures BoundedBody(Prelude(kind, i, base) + [Final(kind, i, base)], base + Temps(kind))
  {
    assert BoundedOperand(i.args[0], base) && BoundedOperand(i.args[1], base);
  }

  lemma {:induction false} RewrittenBounded(kind: Kind, body: seq<Instr>, n: nat, pick: nat -> bool, j: nat)
    requires j <= |body| && BoundedBody(body, n)
    ensures BoundedBody(Rewritten(kind, body, n, pick, j).code, Rewritten(kind, body, n, pick, j).next)
  {
    hide Candidate, Prelude, Final, BoundedInstr;
    if j > 0 {
      RewrittenBounded(kind, body, n, pick, j - 1);
      RewrittenGrows(kind, body, n, pick, j - 1);
      var p, r := Rewritten(kind, body, n, pick, j - 1), Rewritten(kind, body, n, pick, j);
      BoundedMore(body[j - 1], n, p.next);
      var more := r.code[|p.code|..];
      assert r.code == p.code + more;
      assert BoundedBody(more, r.next) by {
        if Candidate(kind, body[j - 1]) && Takes(kind, pick, p.draws) {
          SubstitutionBounded(kind, body[j - 1], p.next);
          assert more == Prelude(kind, body[j - 1], p.next) + [Final(kind, body[j - 1], p.next)];
        } else {
          assert more == [body[j - 1]];
        }
      }
      forall k | 0 <= k < |r.code| ensures BoundedInstr(r.code[k], r.next) {
        if k < |p.code| {
          BoundedMore(p.code[k], p.next, r.next);
        } else {
          assert r.code[k] == more[k - |p.code|];
        }
      }
    }
  }

  // ---------- The form of a rewritten body ----------

  /** A substitution defines the candidate's register last, and reads its operands and what it has
      defined before. */
  lemma SubstitutionForm(kind: Kind, i: Instr, base: Reg)
    requires Candidate(kind, i) && BoundedInstr(i, base)
    ensures var more := Prelude(kind, i, base) + [Final(kind, i, base)];
      && UniqueBody(more) && BodyDsts([i]) <= BodyDsts(more)
      && (forall r :: r in BodyDsts(more) ==> r in BodyDsts([i]) || r >= base)
      && forall m, k :: 0 <= m < |more| && 0 <= k < |more[m].args| ==>
           more[m].args[k].Const? || more[m].args[k] in i.args || more[m].args[k].reg in BodyDsts(more[..m])
  {
    var more := Prelude(kind, i, base) + [Final(kind, i, base)];
    SubstitutionDsts(kind, i, base);
    SingleDsts(i);
    LastDst(more);
    assert i.args[0] in i.args && i.args[1] in i.args;
    SubstitutionUses(kind, i, base);
  }

  lemma SingleDsts(i: Instr)
    ensures BodyDsts([i]) == if i.dst.Some? then {i.dst.value} else {}
  {
    BodyDstsSnoc([i]);
    assert [i][..0] == [];
  }

  lemma LastDst(code: seq<Instr>)
    requires code != [] && code[|code| - 1].dst.Some?
    ensures code[|code| - 1].dst.value in BodyDsts(code)
  {
  }

  lemma SubstitutionDsts(kind: Kind, i: Instr, base: Reg)
    requires Candidate(kind, i) && BoundedInstr(i, base)
    ensures var more := Prelude(kind, i, base) + [Final(kind, i, base)];
      && |more| == Temps(kind) + 1 && more[Temps(kind)].dst == i.dst
      && forall m :: 0 <= m < Temps(kind) ==> more[m].dst == Some(base + m)
  {
  }

  lemma SubstitutionUses(kind: Kind, i: Instr, base: Reg)
    requires Candidate(kind, i) && BoundedInstr(i, base)
    ensures var more := Prelude(kind, i, base) + [Final(kind, i, base)];
      forall m, k :: 0 <= m < |more| && 0 <= k < |more[m].args| ==>
        more[m].args[k].Const? || more[m].args[k] in i.args || more[m].args[k].reg in BodyDsts(more[..m])
  {
    var more := Prelude(kind, i, base) + [Final(kind, i, base)];
    SubstitutionDsts(kind, i, base);
    forall m, k | 0 <= m < |more| && 0 <= k < |more[m].args|
      ensures more[m].args[k].Const? || more[m].args[k] in i.args || more[m].args[k].reg in BodyDsts(more[..m])
    {
      if more[m].args[k].Use? && more[m].args[k] !in i.args {
        var q := more[m].args[k].reg - base;
        assert 0 <= q < m;
        assert more[..m][q].dst == Some(base + q);
      }
    }
  }

  lemma KeptForm(i: Instr)
    ensures UniqueBody([i])
    ensures forall m, k :: 0 <= m < 1 && 0 <= k < |[i][m].args| ==> [i][m].args[k] in i.args
  {
  }

  lemma CodeDsts(code: seq<Instr>, n: nat)
    requires BoundedBody(code, n)
    ensures forall r :: r in BodyDsts(code) ==> r < n
  {
    forall r | r in BodyDsts(code) ensures r < n {
      var k :| 0 <= k < |code| && code[k].dst.Some? && code[k].dst.value == r;
      assert BoundedInstr(code[k], n);
    }
  }

  lemma NotBefore(body: seq<Instr>, j: nat)
    requires UniqueBody(body) && j < |body|
    ensures BodyDsts(body[..j]) !! BodyDsts([body[j]])
  {
    SingleDsts(body[j]);
    if r :| r in BodyDsts(body[..j]) && r in BodyDsts([body[j]]) {
      var k :| 0 <= k < j && body[..j][k].dst.Some? && body[..j][k].dst.value == r;
      assert body[k].dst == body[j].dst;
    }
  }

  /** A rewritten body defines each old register once, and fresh ones. */
  lemma {:induction false} RewrittenExtends(kind: Kind, body: seq<Instr>, n: nat, pick: nat -> bool, j: nat)
    requires j <= |body| && BoundedBody(body, n) && UniqueBody(body)
    ensures ExtendsBody(body[..j], Rewritten(kind, body, n, pick, j).code, n)
    decreases j
  {
    hide *;
    RewrittenBounded(kind, body, n, pick, if j == 0 then 0 else j - 1);
    RewrittenCases(kind, body, n, pick, j);
    if j == 0 {
      ExtendsNothing(n);
    } else {
      RewrittenExtends(kind, body, n, pick, j - 1);
      RewrittenGrows(kind, body, n, pick, j - 1);
      var p, i := Rewritten(kind, body, n, pick, j - 1), body[j - 1];
      BoundedAt(body, n, j - 1);
      CodeDsts(p.code, p.next);
      NotBefore(body, j - 1);
      ExtendsDsts(body[..j - 1], p.code, n);
      BoundedMore(i, n, p.next);
      CodeDsts([i], n);
      assert body[..j - 1] + [i] == body[..j];
      if Candidate(kind, i) && Takes(kind, pick, p.draws) {
        SubstitutionForm(kind, i, p.next);
        ExtendsNext(body[..j - 1], i, p.code, Prelude(kind, i, p.next) + [Final(kind, i, p.next)], n);
      } else {
        KeptForm(i);
        ExtendsNext(body[..j - 1], i, p.code, [i], n);
      }
    }
  }

  lemma ExtendsDsts(body: seq<Instr>, code: seq<Instr>, n: nat)
    requires ExtendsBody(body, code, n)
    ensures forall r :: r in BodyDsts(code) ==> r in BodyDsts(body) || r >= n
  {
  }

  lemma BoundedAt(body: seq<Instr>, n: nat, k: nat)
    requires BoundedBody(body, n) && k < |body|
    ensures BoundedInstr(body[k], n) && BoundedBody([body[k]], n)
  {
  }

  lemma RewrittenCases(kind: Kind, body: seq<Instr>, n: nat, pick: nat -> bool, j: nat)
    requires j <= |body|
    ensures j == 0 ==> Rewritten(kind, body, n, pick, j).code == [] && body[..j] == []
    ensures j > 0 ==>
      var p, i := Rewritten(kind, body, n, pick, j - 1), body[j - 1];
      Rewritten(kind, body, n, pick, j).code ==
        p.code + (if Candidate(kind, i) && Takes(kind, pick, p.draws) then Prelude(kind, i, p.next) + [Final(kind, i, p.next)] else [i])
  {
    hide *;
    if j > 0 {
      RewrittenStep(kind, body, n, pick, j - 1);
    } else {
      EndRewritten(kind, body, n, pick);
    }
  }

  lemma PreservesCompose(n: nat, n': nat, x: seq<Instr>, y: seq<Instr>, z: seq<Instr>)
    requires n <= n' && Preserves(n, x, y) && Preserves(n', y, z)
    ensures Preserves(n, x, z)
  {
    forall w: World, env: Env, env': Env, trace: seq<Event> | Agree(n, env, env')
      ensures AgreeOutcome(n, ExecBody(w, env, trace, x), ExecBody(w, env', trace, z))
    {
      hide ExecBody;
      assert Agree(n', env', env');
      var o, p, q := ExecBody(w, env, trace, x), ExecBody(w, env', trace, y), ExecBody(w, env', trace, z);
      assert AgreeOutcome(n, o, p) && AgreeOutcome(n', p, q);
    }
  }

  lemma NextRewritten(kind: Kind, body: seq<Instr>, n: nat, pick: nat -> bool, j: nat, now: seq<Instr>)
    requires j < |body| && now == Rewritten(kind, body, n, pick, j).code + body[j..]
    ensures var p, r := Rewritten(kind, body, n, pick, j), Rewritten(kind, body, n, pick, j + 1);
      var k := |p.code|;
      && k < |now| && now[k] == body[j]
      && (!Candidate(kind, body[j]) ==>
            r.code + body[j + 1..] == now && |r.code| == k + 1 && r.next == p.next && r.draws == p.draws)
      && (Candidate(kind, body[j]) && !Takes(kind, pick, p.draws) ==>
            r.code + body[j + 1..] == now && |r.code| == k + 1 && r.next == p.next && r.draws == p.draws + 1)
      && (Candidate(kind, body[j]) && Takes(kind, pick, p.draws) ==>
            && r.code + body[j + 1..] ==
                 now[..k] + (Prelude(kind, body[j], p.next) + [Final(kind, body[j], p.next)]) + now[k + 1..]
            && |r.code| == k + 1 + Temps(kind) && r.next == p.next + Temps(kind) > p.next && r.draws == p.draws + 1)
  {
    hide *;
    var p, r := Rewritten(kind, body, n, pick, j), Rewritten(kind, body, n, pick, j + 1);
    RewrittenStep(kind, body, n, pick, j);
    var k := |p.code|;
    assert now[..k] == p.code && now[k + 1..] == body[j + 1..];
    assert body[j..] == [body[j]] + body[j + 1..];
    Appended(p.code, body[j], body[j + 1..]);
  }

  lemma Appended(x: seq<Instr>, i: Instr, y: seq<Instr>)
    ensures (x + [i]) + y == x + ([i] + y)
  {
  }

  lemma RewrittenStep(kind: Kind, body: seq<Instr>, n: nat, pick: nat -> bool, j: nat)
    requires j < |body|
    ensures Temps(kind) > 0
    ensures var p, i := Rewritten(kind, body, n, pick, j), body[j];
      Rewritten(kind, body, n, pick, j + 1) ==
        (if !Candidate(kind, i) then p.(code := p.code + [i])
         else if !Takes(kind, pick, p.draws) then p.(code := p.code + [i], draws := p.draws + 1)
         else Progress(p.code + (Prelude(kind, i, p.next) + [Final(kind, i, p.next)]), p.next + Temps(kind), p.draws + 1))
    ensures Candidate(kind, body[j]) ==>
      |Prelude(kind, body[j], Rewritten(kind, body, n, pick, j).next)| == Temps(kind)
  {
    hide Candidate, Prelude, Final;
  }

  lemma EndRewritten(kind: Kind, body: seq<Instr>, n: nat, pick: nat -> bool)
    ensures Rewritten(kind, body, n, pick, 0) == Progress([], n, 0)
    ensures body[|body|..] == [] && body[0..] == body
  {
  }

  /** One pass over one block of a function, replacing candidates in place. The instruction put in the
      place of a candidate is stepped over, so nothing inserted is visited. */
  method RunOnBasicBlock(fn: Function, c: Label, kind: Kind, pick: nat -> bool) returns (changed: bool)
    requires c in fn.blocks && BoundedBody(fn.blocks[c].body, fn.nextReg)
    modifies fn`blocks, fn`nextReg
    ensures c in fn.blocks
    ensures fn.blocks == old(fn.blocks)[c := old(fn.blocks)[c].(body := fn.blocks[c].body)]
    ensures Preserves(old(fn.nextReg), old(fn.blocks)[c].body, fn.blocks[c].body)
    ensures old(fn.nextReg) <= fn.nextReg && BoundedBody(fn.blocks[c].body, fn.nextReg)
    ensures var body := old(fn.blocks)[c].body;
      var r := Rewritten(kind, body, old(fn.nextReg), pick, |body|);
      && fn.blocks[c].body == r.code && fn.nextReg == r.next
      && (changed <==> r.next != old(fn.nextReg))
    ensures Rewrites(kind, old(fn.blocks)[c].body, pick, fn.blocks[c].body)
    ensures changed <==> exists k :: 0 <= k < |old(fn.blocks)[c].body| && Replaced(kind, old(fn.blocks)[c].body, pick, k)
    ensures kind == SubPass ==> forall i :: i in fn.blocks[c].body ==> !IsSubtraction(i)
    ensures UniqueBody(old(fn.blocks)[c].body) ==> ExtendsBody(old(fn.blocks)[c].body, fn.blocks[c].body, old(fn.nextReg))
  {
    hide Candidate, BoundedBody, Preserves, Prelude, Final, Rewritten, UniqueBody, ExtendsBody, Rewrites, Replaced, Takes,
         IsSubtraction;
    ghost var original, n := fn.blocks[c].body, fn.nextReg;
    changed := false;
    var pos, draws := 0, 0;
    ghost var j := 0;
    EndRewritten(kind, original, n, pick);
    while pos < |fn.blocks[c].body|
      invariant j <= |original| && c in fn.blocks
      invariant fn.blocks == old(fn.blocks)[c := old(fn.blocks)[c].(body := fn.blocks[c].body)]
      invariant fn.blocks[c].body == Rewritten(kind, original, n, pick, j).code + original[j..]
      invariant pos == |Rewritten(kind, original, n, pick, j).code|
      invariant fn.nextReg == Rewritten(kind, original, n, pick, j).next >= n
      invariant draws == Rewritten(kind, original, n, pick, j).draws
      invariant changed <==> fn.nextReg != n
      decreases |original| - j
    {
      var body := fn.blocks[c].body;
      var i := body[pos];
      NextRewritten(kind, original, n, pick, j, body);
      if Candidate(kind, i) {
        if Takes(kind, pick, draws) {
          var base := fn.nextReg;
          fn.nextReg := base + Temps(kind);
          body := body[..pos] + (Prelude(kind, i, base) + [Final(kind, i, base)]) + body[pos + 1..];
          fn.blocks := fn.blocks[c := fn.blocks[c].(body := body)];
          pos := pos + Temps(kind);
          changed := true;
        }
        draws := draws + 1;
      }
      pos := pos + 1;
      j := j + 1;
    }
    assert j == |original|;
    assert fn.blocks[c].body == Rewritten(kind, original, n, pick, j).code;
    RewritePreserves(kind, original, n, pick);
    RewrittenBounded(kind, original, n, pick, j);
    RewrittenIs(kind, original, n, pick);
    NoSubtraction(original, n, pick, j);
    if UniqueBody(original) {
      RewrittenExtends(kind, original, n, pick, j);
      assert original[..j] == original;
    }
  }

  // ---------- What becomes of each instruction ----------

  /** The draws of the addition pass before instruction `k`: one for each 8-bit addition. */
  ghost function Draws(body: seq<Instr>, k: nat): nat
    requires k <= |body|
  {
    if k == 0 then 0
    else
      var i := body[k - 1];
      Draws(body, k - 1) + if i.op == Bin(Add) && i.ty == IntTy(8) && i.dst.Some? && |i.args| == 2 then 1 else 0
  }

  /** Instruction `k` is replaced: an 8-bit addition that is drawn, or an integer subtraction. */
  ghost predicate Replaced(kind: Kind, body: seq<Instr>, pick: nat -> bool, k: nat)
    requires k < |body|
  {
    var i := body[k];
    && i.dst.Some? && |i.args| == 2
    && match kind
       case AddPass => i.op == Bin(Add) && i.ty == IntTy(8) && pick(Draws(body, k))
       case SubPass => i.op == Bin(Sub) && i.ty.IntTy?
  }

  ghost predicate IsBin(c: Instr, ty: Ty, op: BinOp, x: Operand, y: Operand) {
    c.dst.Some? && c.ty == ty && c.op == Bin(op) && c.args == [x, y]
  }

  ghost function Result(c: Instr): Operand {
    if c.dst.Some? then Use(c.dst.value) else Const(0)
  }

  /** `a + b` has become `(((a ^ b) + 2 * (a & b)) * 39 + 23) * 151 + 111`, from position `p` on. */
  ghost predicate IsSum(i: Instr, code: seq<Instr>, p: nat) {
    && |i.args| == 2 && p + 7 < |code|
    && IsBin(code[p], IntTy(8), Xor, i.args[0], i.args[1])
    && IsBin(code[p + 1], IntTy(8), And, i.args[0], i.args[1])
    && IsBin(code[p + 2], IntTy(8), Mul, Const(2), Result(code[p + 1]))
    && IsBin(code[p + 3], IntTy(8), Add, Result(code[p]), Result(code[p + 2]))
    && IsBin(code[p + 4], IntTy(8), Mul, Const(39), Result(code[p + 3]))
    && IsBin(code[p + 5], IntTy(8), Add, Const(23), Result(code[p + 4]))
    && IsBin(code[p + 6], IntTy(8), Mul, Const(151), Result(code[p + 5]))
    && IsBin(code[p + 7], IntTy(8), Add, Const(111), Result(code[p + 6])) && code[p + 7].dst == i.dst
  }

  /** `a - b` has become `(a + (b ^ -1)) + 1`, from position `p` on. */
  ghost predicate IsDifference(i: Instr, code: seq<Instr>, p: nat) {
    && |i.args| == 2 && p + 2 < |code|
    && IsBin(code[p], i.ty, Xor, i.args[1], Const(-1))
    && IsBin(code[p + 1], i.ty, Add, i.args[0], Result(code[p]))
    && IsBin(code[p + 2], i.ty, Add, Result(code[p + 1]), Const(1)) && code[p + 2].dst == i.dst
  }

  /** `code` is `body` with what becomes of instruction `k` from position `at[k]` on, and nothing else. */
  ghost predicate Follows(kind: Kind, body: seq<Instr>, pick: nat -> bool, code: seq<Instr>, at: seq<nat>, j: nat)
    requires j <= |body|
  {
    && |at| == j + 1 && at[0] == 0 && at[j] == |code|
    && forall k :: 0 <= k < j ==> Became(kind, body, pick, k, code, at[k], at[k + 1])
  }

  ghost predicate Became(kind: Kind, body: seq<Instr>, pick: nat -> bool, k: nat, code: seq<Instr>, p: nat, q: nat)
    requires k < |body|
  {
    if !Replaced(kind, body, pick, k) then q == p + 1 && p < |code| && code[p] == body[k]
    else if kind == AddPass then q == p + 8 && IsSum(body[k], code, p)
    else q == p + 3 && IsDifference(body[k], code, p)
  }

  /** A pass over a block replaces exactly what it has to, by exactly this. */
  ghost predicate Rewrites(kind: Kind, body: seq<Instr>, pick: nat -> bool, code: seq<Instr>) {
    exists at :: Follows(kind, body, pick, code, at, |body|)
  }

  lemma {:induction false} RewrittenDraws(kind: Kind, body: seq<Instr>, n: nat, pick: nat -> bool, j: nat)
    requires j <= |body|
    ensures kind == AddPass ==> Rewritten(kind, body, n, pick, j).draws == Draws(body, j)
    decreases j
  {
    hide Prelude, Final;
    if j > 0 {
      RewrittenDraws(kind, body, n, pick, j - 1);
    }
  }

  lemma ReplacedIs(kind: Kind, body: seq<Instr>, n: nat, pick: nat -> bool, k: nat)
    requires k < |body|
    ensures Replaced(kind, body, pick, k) <==>
      Candidate(kind, body[k]) && Takes(kind, pick, Rewritten(kind, body, n, pick, k).draws)
  {
    RewrittenDraws(kind, body, n, pick, k);
    hide Rewritten, Draws;
  }

  lemma PieceBecame(kind: Kind, body: seq<Instr>, pick: nat -> bool, k: nat, code: seq<Instr>, base: Reg, more: seq<Instr>)
    requires k < |body| && (Replaced(kind, body, pick, k) ==> Candidate(kind, body[k]))
    requires more == (if Replaced(kind, body, pick, k) then Prelude(kind, body[k], base) + [Final(kind, body[k], base)]
                      else [body[k]])
    ensures Became(kind, body, pick, k, code + more, |code|, |code + more|)
  {
    hide Draws;
    var all := code + more;
    assert forall m :: 0 <= m < |more| ==> all[|code| + m] == more[m];
  }

  lemma BecameStill(kind: Kind, body: seq<Instr>, pick: nat -> bool, k: nat, code: seq<Instr>, more: seq<Instr>, p: nat, q: nat)
    requires k < |body| && Became(kind, body, pick, k, code, p, q)
    ensures Became(kind, body, pick, k, code + more, p, q)
  {
    hide Draws, Replaced, IsBin, Result;
  }

  lemma FollowsMore(kind: Kind, body: seq<Instr>, pick: nat -> bool, k: nat, code: seq<Instr>, more: seq<Instr>, at: seq<nat>)
    requires k < |body| && Follows(kind, body, pick, code, at, k)
    requires Became(kind, body, pick, k, code + more, |code|, |code + more|)
    ensures Follows(kind, body, pick, code + more, at + [|code + more|], k + 1)
  {
    hide Became;
    var at' := at + [|code + more|];
    forall h | 0 <= h < k + 1 ensures Became(kind, body, pick, h, code + more, at'[h], at'[h + 1]) {
      if h < k {
        BecameStill(kind, body, pick, h, code, more, at[h], at[h + 1]);
      }
    }
  }

  lemma FollowsNothing(kind: Kind, body: seq<Instr>, pick: nat -> bool)
    ensures Follows(kind, body, pick, [], [0], 0)
  {
  }

  lemma {:induction false} RewrittenFollows(kind: Kind, body: seq<Instr>, n: nat, pick: nat -> bool, j: nat) returns (at: seq<nat>)
    requires j <= |body|
    ensures Follows(kind, body, pick, Rewritten(kind, body, n, pick, j).code, at, j)
    decreases j
  {
    hide *;
    RewrittenCases(kind, body, n, pick, j);
    if j == 0 {
      at := [0];
      FollowsNothing(kind, body, pick);
    } else {
      at := RewrittenFollows(kind, body, n, pick, j - 1);
      var p, k := Rewritten(kind, body, n, pick, j - 1), j - 1;
      ReplacedIs(kind, body, n, pick, k);
      var more := if Candidate(kind, body[k]) && Takes(kind, pick, p.draws)
                  then Prelude(kind, body[k], p.next) + [Final(kind, body[k], p.next)] else [body[k]];
      PieceBecame(kind, body, pick, k, p.code, p.next, more);
      FollowsMore(kind, body, pick, k, p.code, more, at);
      at := at + [|p.code + more|];
    }
  }

  lemma {:induction false} RewrittenChanges(kind: Kind, body: seq<Instr>, n: nat, pick: nat -> bool, j: nat)
    requires j <= |body|
    ensures Rewritten(kind, body, n, pick, j).next != n <==> exists k :: 0 <= k < j && Replaced(kind, body, pick, k)
    decreases j
  {
    hide Replaced, Prelude, Final, Candidate, Takes;
    if j > 0 {
      RewrittenChanges(kind, body, n, pick, j - 1);
      RewrittenGrows(kind, body, n, pick, j - 1);
      ReplacedIs(kind, body, n, pick, j - 1);
    }
  }

  lemma RewrittenIs(kind: Kind, body: seq<Instr>, n: nat, pick: nat -> bool)
    ensures var r := Rewritten(kind, body, n, pick, |body|);
      && Rewrites(kind, body, pick, r.code)
      && (r.next != n <==> exists k :: 0 <= k < |body| && Replaced(kind, body, pick, k))
  {
    hide Rewritten, Replaced, Follows;
    var at := RewrittenFollows(kind, body, n, pick, |body|);
    RewrittenChanges(kind, body, n, pick, |body|);
  }

  ghost predicate IsSubtraction(i: Instr) {
    i.op == Bin(Sub) && i.ty.IntTy? && i.dst.Some? && |i.args| == 2
  }

  /** The subtraction pass leaves no integer subtraction. */
  lemma {:induction false} NoSubtraction(body: seq<Instr>, n: nat, pick: nat -> bool, j: nat)
    requires j <= |body|
    ensures forall i :: i in Rewritten(SubPass, body, n, pick, j).code ==> !IsSubtraction(i)
    decreases j
  {
    RewrittenCases(SubPass, body, n, pick, j);
    hide Rewritten;
    if j > 0 {
      NoSubtraction(body, n, pick, j - 1);
      var p, i := Rewritten(SubPass, body, n, pick, j - 1), body[j - 1];
      if Candidate(SubPass, i) {
        var more := Prelude(SubPass, i, p.next) + [Final(SubPass, i, p.next)];
        assert forall x :: x in more ==> x == more[0] || x == more[1] || x == more[2];
      }
    }
  }

  // ---------- The pass over a function ----------

  /** `g` is `f` with preserving bodies. */
  ghost predicate Substituted(f: Func, g: Func) {
    && g.args == f.args && g.entry == f.entry && g.blocks.Keys == f.blocks.Keys && f.nextReg <= g.nextReg
    && forall c :: c in f.blocks ==>
         && g.blocks[c] == f.blocks[c].(body := g.blocks[c].body)
         && Preserves(f.nextReg, f.blocks[c].body, g.blocks[c].body)
         && BoundedBody(g.blocks[c].body, g.nextReg)
  }

  ghost predicate AgreeState(n: nat, s: State, s': State) {
    if s.At? then s'.At? && s'.cur == s.cur && s'.prev == s.prev && s'.trace == s.trace && Agree(n, s.env, s'.env)
    else s' == s
  }

  lemma {:induction false} AgreePhis(n: nat, env: Env, env': Env, prev: Option<Label>, phis: seq<Phi>)
    requires Agree(n, env, env') && forall i :: 0 <= i < |phis| ==> BoundedPhi(phis[i], n)
    ensures ExecPhis(env, prev, phis).Some? <==> ExecPhis(env', prev, phis).Some?
    ensures ExecPhis(env, prev, phis).Some? ==> Agree(n, ExecPhis(env, prev, phis).value, ExecPhis(env', prev, phis).value)
    decreases |phis|
  {
    if phis != [] {
      var k := |phis| - 1;
      AgreePhis(n, env, env', prev, phis[..k]);
      assert BoundedPhi(phis[k], n);
      if prev.Some? && prev.value in phis[k].incoming {
        assert BoundedOperand(phis[k].incoming[prev.value], n);
      }
    }
  }

  lemma AgreeTerm(n: nat, env: Env, env': Env, trace: seq<Event>, t: Term, cur: Label)
    requires Agree(n, env, env') && forall i :: 0 <= i < |TermUses(t)| ==> BoundedOperand(TermUses(t)[i], n)
    ensures AgreeState(n, ExecTerm(t, cur, env, trace), ExecTerm(t, cur, env', trace))
  {
    match t
    case Switch(on, _, _) => assert BoundedOperand(TermUses(t)[0], n);
    case Return(Some(o)) => assert BoundedOperand(TermUses(t)[0], n);
    case _ =>
  }

  lemma AgreeStep(f: Func, g: Func, w: World, s: State, s': State)
    requires Bounded(f) && Substituted(f, g) && AgreeState(f.nextReg, s, s')
    ensures AgreeState(f.nextReg, Step(f, w, s), Step(g, w, s'))
  {
    hide ExecBody, ExecTerm, Agree, ExecPhis;
    if s.At? && s.cur in f.blocks {
      var n, B, B' := f.nextReg, f.blocks[s.cur], g.blocks[s.cur];
      assert BoundedBlock(B, n);
      AgreePhis(n, s.env, s'.env, s.prev, B.phis);
      var e, e' := ExecPhis(s.env, s.prev, B.phis), ExecPhis(s'.env, s.prev, B.phis);
      if e.Some? {
        assert Preserves(n, B.body, B'.body);
        var o, o' := ExecBody(w, e.value, s.trace, B.body), ExecBody(w, e'.value, s.trace, B'.body);
        assert AgreeOutcome(n, o, o');
        if o.Ok? {
          AgreeTerm(n, o.env, o'.env, o.trace, B.term, s.cur);
        }
      }
    }
  }

  lemma {:induction false} AgreeRun(f: Func, g: Func, w: World, input: Env, n: nat)
    requires Bounded(f) && Substituted(f, g)
    ensures AgreeState(f.nextReg, RunOn(f, w, input, n), RunOn(g, w, input, n))
    decreases n
  {
    hide Bounded, Step;
    if n == 0 {
      hide *;
      StartAgrees(f, g, w, input);
    } else {
      AgreeRun(f, g, w, input, n - 1);
      AgreeStep(f, g, w, RunOn(f, w, input, n - 1), RunOn(g, w, input, n - 1));
    }
  }

  lemma StartAgrees(f: Func, g: Func, w: World, input: Env)
    requires g.entry == f.entry
    ensures AgreeState(f.nextReg, RunOn(f, w, input, 0), RunOn(g, w, input, 0))
  {
  }

  /** A function whose bodies are substituted means the same, step for step. */
  lemma SubstitutedMeansSame(f: Func, g: Func)
    requires Bounded(f) && Substituted(f, g)
    ensures SameMeaning(f, g, 1)
  {
    forall w: World, input: Env, n: nat | input.Keys == f.args ensures SameRun(f, g, 1, w, input, n) {
      hide RunOn, Bounded, Agree;
      AgreeRun(f, g, w, input, n);
    }
  }

  lemma {:induction false} AgreeBody(w: World, n: nat, env: Env, env': Env, trace: seq<Event>, body: seq<Instr>)
    requires BoundedBody(body, n) && Agree(n, env, env')
    ensures AgreeOutcome(n, ExecBody(w, env, trace, body), ExecBody(w, env', trace, body))
    decreases |body|
  {
    hide ExecInstr, Agree;
    if body != [] {
      var k := |body| - 1;
      AgreeBody(w, n, env, env', trace, body[..k]);
      var o, o' := ExecBody(w, env, trace, body[..k]), ExecBody(w, env', trace, body[..k]);
      if o.Ok? {
        AgreeInstr(w, n, o.env, o'.env, o.trace, body[k]);
      }
    }
  }

  lemma PreservesRefl(n: nat, body: seq<Instr>)
    requires BoundedBody(body, n)
    ensures Preserves(n, body, body)
  {
    forall w: World, env: Env, env': Env, trace: seq<Event> | Agree(n, env, env')
      ensures AgreeOutcome(n, ExecBody(w, env, trace, body), ExecBody(w, env', trace, body))
    {
      hide *;
      AgreeBody(w, n, env, env', trace, body);
    }
  }

  lemma SubstitutedRefl(f: Func)
    requires Bounded(f)
    ensures Substituted(f, f)
  {
    forall c | c in f.blocks
      ensures BoundedBody(f.blocks[c].body, f.nextReg) && Preserves(f.nextReg, f.blocks[c].body, f.blocks[c].body)
    {
      hide Preserves;
      assert BoundedBlock(f.blocks[c], f.nextReg);
      PreservesRefl(f.nextReg, f.blocks[c].body);
    }
  }

  lemma SubstitutedTrans(f: Func, g: Func, h: Func)
    requires Substituted(f, g) && Substituted(g, h)
    ensures Substituted(f, h)
  {
    hide Preserves, BoundedBody;
    forall c | c in f.blocks ensures Preserves(f.nextReg, f.blocks[c].body, h.blocks[c].body) {
      PreservesCompose(f.nextReg, g.nextReg, f.blocks[c].body, g.blocks[c].body, h.blocks[c].body);
    }
  }

  lemma SubstitutedBounded(f: Func, g: Func)
    requires Bounded(f) && Substituted(f, g) && f.nextLabel == g.nextLabel
    ensures Bounded(g)
  {
    hide Preserves, BoundedInstr;
    forall c | c in g.blocks ensures c < g.nextLabel && BoundedBlock(g.blocks[c], g.nextReg) {
      assert BoundedBlock(f.blocks[c], f.nextReg);
      assert BoundedBody(g.blocks[c].body, g.nextReg);
      forall i | 0 <= i < |f.blocks[c].phis| ensures BoundedPhi(f.blocks[c].phis[i], g.nextReg) {
        assert BoundedPhi(f.blocks[c].phis[i], f.nextReg);
      }
    }
  }

  lemma OneBlock(f: Func, g: Func, c: Label)
    requires Bounded(f) && c in f.blocks && f.nextReg <= g.nextReg
    requires c in g.blocks && g == Func(f.args, f.entry, f.blocks[c := f.blocks[c].(body := g.blocks[c].body)], g.nextReg, f.nextLabel)
    requires Preserves(f.nextReg, f.blocks[c].body, g.blocks[c].body) && BoundedBody(g.blocks[c].body, g.nextReg)
    ensures Substituted(f, g) && Bounded(g)
  {
    hide Preserves;
    forall d | d in f.blocks
      ensures BoundedBody(g.blocks[d].body, g.nextReg) && Preserves(f.nextReg, f.blocks[d].body, g.blocks[d].body)
    {
      if d != c {
        assert BoundedBlock(f.blocks[d], f.nextReg);
        PreservesRefl(f.nextReg, f.blocks[d].body);
        forall k | 0 <= k < |f.blocks[d].body| ensures BoundedInstr(f.blocks[d].body[k], g.nextReg) {
          BoundedMore(f.blocks[d].body[k], f.nextReg, g.nextReg);
        }
      }
    }
    SubstitutedBounded(f, g);
  }

  lemma BoundedBodies(f: Func, c: Label)
    requires Bounded(f) && c in f.blocks
    ensures BoundedBody(f.blocks[c].body, f.nextReg)
  {
    assert BoundedBlock(f.blocks[c], f.nextReg);
  }

  lemma OneBlockForm(f: Func, g: Func, c: Label)
    requires Bounded(g) && c in f.blocks && c in g.blocks
    requires g == Func(f.args, f.entry, f.blocks[c := f.blocks[c].(body := g.blocks[c].body)], g.nextReg, f.nextLabel)
    requires UniqueBody(f.blocks[c].body) ==> ExtendsBody(f.blocks[c].body, g.blocks[c].body, f.nextReg)
    ensures WellFormed(f) ==> WellFormed(g)
  {
    hide WellFormed, ExtendsBody, Bounded;
    if WellFormed(f) {
      UniqueBodies(f, c);
      NewBodyWellFormed(f, g, c);
    }
  }

  lemma UniqueBodies(f: Func, c: Label)
    requires WellFormed(f) && c in f.blocks
    ensures UniqueBody(f.blocks[c].body)
  {
    assert UniqueInBlock(f.blocks[c]);
  }

  /** One pass over the blocks of `order`. */
  ghost predicate PassDone(f: Func, g: Func, order: seq<Label>, kind: Kind, pick: nat -> bool) {
    && g.blocks.Keys == f.blocks.Keys
    && (forall c :: c in f.blocks && c !in order ==> g.blocks[c] == f.blocks[c])
    && (forall c :: c in f.blocks && c in order ==> Rewrites(kind, f.blocks[c].body, pick, g.blocks[c].body))
    && (kind == SubPass ==> forall c, i :: c in g.blocks && c in order && i in g.blocks[c].body ==> !IsSubtraction(i))
  }

  lemma NothingDone(f: Func, kind: Kind, pick: nat -> bool)
    ensures PassDone(f, f, [], kind, pick)
  {
  }

  lemma OneMoreDone(f: Func, g: Func, h: Func, order: seq<Label>, k: nat, kind: Kind, pick: nat -> bool)
    requires k < |order| && order[k] !in order[..k] && order[k] in f.blocks && PassDone(f, g, order[..k], kind, pick)
    requires order[k] in h.blocks && h.blocks == g.blocks[order[k] := h.blocks[order[k]]]
    requires Rewrites(kind, g.blocks[order[k]].body, pick, h.blocks[order[k]].body)
    requires kind == SubPass ==> forall i :: i in h.blocks[order[k]].body ==> !IsSubtraction(i)
    ensures PassDone(f, h, order[..k + 1], kind, pick)
  {
    hide Rewrites, IsSubtraction;
    assert order[..k + 1] == order[..k] + [order[k]];
  }

  /** One pass over a function, block by block. Random numbers start afresh in every block. */
  method RunOnFunction(fn: Function, order: seq<Label>, kind: Kind, pick: nat -> bool) returns (changed: bool)
    requires Bounded(fn.Value()) && forall c :: c in order ==> c in fn.blocks
    requires forall i, j :: 0 <= i < j < |order| ==> order[i] != order[j]
    modifies fn`blocks, fn`nextReg
    ensures Substituted(old(fn.Value()), fn.Value()) && Bounded(fn.Value())
    ensures WellFormed(old(fn.Value())) ==> WellFormed(fn.Value())
    ensures SameMeaning(old(fn.Value()), fn.Value(), 1)
    ensures PassDone(old(fn.Value()), fn.Value(), order, kind, pick)
    ensures changed <==>
      exists c, k :: c in order && 0 <= k < |old(fn.blocks)[c].body| && Replaced(kind, old(fn.blocks)[c].body, pick, k)
  {
    hide Bounded, Substituted, SameMeaning, Preserves, BoundedBody, Rewritten, WellFormed, UniqueBody, ExtendsBody, PassDone,
         Rewrites, Replaced, IsSubtraction;
    ghost var f := fn.Value();
    SubstitutedRefl(f);
    NothingDone(f, kind, pick);
    changed := false;
    for k := 0 to |order|
      invariant Substituted(f, fn.Value()) && Bounded(fn.Value())
      invariant WellFormed(f) ==> WellFormed(fn.Value())
      invariant fn.blocks.Keys == f.blocks.Keys
      invariant PassDone(f, fn.Value(), order[..k], kind, pick)
      invariant forall c :: c in f.blocks && c !in order[..k] ==> fn.blocks[c] == f.blocks[c]
      invariant changed <==>
        exists i, h :: 0 <= i < k && 0 <= h < |f.blocks[order[i]].body| && Replaced(kind, f.blocks[order[i]].body, pick, h)
    {
      ghost var g := fn.Value();
      BoundedBodies(g, order[k]);
      assert order[k] !in order[..k];
      var replaced := RunOnBasicBlock(fn, order[k], kind, pick);
      OneBlock(g, fn.Value(), order[k]);
      OneBlockForm(g, fn.Value(), order[k]);
      SubstitutedTrans(f, g, fn.Value());
      OneMoreDone(f, g, fn.Value(), order, k, kind, pick);
      assert order[..k + 1] == order[..k] + [order[k]];
      changed := changed || replaced;
    }
    assert order[..|order|] == order;
    SubstitutedMeansSame(f, fn.Value());
  }

  /** Any sequence of the two passes, with any selections. */
  method RunPasses(fn: Function, order: seq<Label>, passes: seq<Kind>, picks: seq<nat -> bool>) returns (ghost steps: seq<Func>)
    requires Bounded(fn.Value()) && (forall c :: c in order ==> c in fn.blocks) && |picks| == |passes|
    requires forall i, j :: 0 <= i < j < |order| ==> order[i] != order[j]
    modifies fn`blocks, fn`nextReg
    ensures Substituted(old(fn.Value()), fn.Value()) && SameMeaning(old(fn.Value()), fn.Value(), 1)
    ensures Bounded(fn.Value()) && (WellFormed(old(fn.Value())) ==> WellFormed(fn.Value()))
    ensures |steps| == |passes| + 1 && steps[0] == old(fn.Value()) && steps[|passes|] == fn.Value()
    ensures forall k :: 0 <= k < |passes| ==> PassDone(steps[k], steps[k + 1], order, passes[k], picks[k])
  {
    hide Bounded, Substituted, SameMeaning, WellFormed, PassDone;
    ghost var f := fn.Value();
    SubstitutedRefl(f);
    steps := [f];
    for k := 0 to |passes|
      invariant Substituted(f, fn.Value()) && Bounded(fn.Value()) && fn.blocks.Keys == f.blocks.Keys
      invariant WellFormed(f) ==> WellFormed(fn.Value())
      invariant |steps| == k + 1 && steps[0] == f && steps[k] == fn.Value()
      invariant forall h :: 0 <= h < k ==> PassDone(steps[h], steps[h + 1], order, passes[h], picks[h])
    {
      ghost var g := fn.Value();
      var _ := RunOnFunction(fn, order, passes[k], picks[k]);
      SameBlocks(g, fn.Value());
      SubstitutedTrans(f, g, fn.Value());
      steps := steps + [fn.Value()];
    }
    SubstitutedMeansSame(f, fn.Value());
  }

  lemma SameBlocks(f: Func, g: Func)
    requires Substituted(f, g)
    ensures f.blocks.Keys == g.blocks.Keys
  {
  }
}
