/** Duplicating a whole list of blocks: the remap table threaded through the calls, well-formedness
    after every call, and equality of behaviour over whole runs. */
module DuplicationRuns {
  import opened Ssa
  import opened SsaForm
  import opened Duplication
  import opened DuplicationSim
  import opened DuplicationForm
  import opened DuplicationDominance

  // ---------- One duplication over a whole run ----------

  ghost function RunOn(f: Func, w: World, input: Env, n: nat): State {
    Run(f, w, Init(f, input), n)
  }

  /** The number of steps the new function takes for `n` steps of the old one, when the blocks of
      `dup` are duplicated: three for each visit to one of them, one for every other step. */
  ghost function Cost(f: Func, w: World, input: Env, dup: set<Label>, n: nat): nat {
    if n == 0 then 0
    else
      var s := RunOn(f, w, input, n - 1);
      Cost(f, w, input, dup, n - 1) + (if s.At? && s.cur in dup then 3 else 1)
  }

  lemma {:induction false} CostBounds(f: Func, w: World, input: Env, dup: set<Label>, n: nat)
    ensures n <= Cost(f, w, input, dup, n) <= 3 * n
  {
    if n > 0 {
      CostBounds(f, w, input, dup, n - 1);
    }
  }

  lemma InitRelated(f: Func, b: Label, ctx: Reg, input: Env)
    requires WellFormed(f) && b in f.blocks && input.Keys == f.args
    ensures StateRelated(f, b, Init(f, input), Init(Duplicated(f, b, ctx), input))
  {
    var body := f.blocks[b].body;
    var m := Replaced(f, b);
    forall r | 0 <= r < f.nextReg
      ensures (r in input <==> Rename(m, r) in input) && (r in input ==> input[r] == input[Rename(m, r)])
    {
      if r in m {
        var i := NameMapValue(body, PhiReg(f, 0), |body|, r);
        NameMapKeys(body, PhiReg(f, 0), |body|);
        assert body[..|body|] == body;
        assert f.args !! Defs(f.blocks[b]);
      }
    }
  }

  lemma RunOnAdd(g: Func, w: World, input: Env, c: nat, k: nat)
    ensures RunOn(g, w, input, c + k) == Run(g, w, RunOn(g, w, input, c), k)
  {
    RunAdd(g, w, Init(g, input), c, k);
  }

  lemma InsideRun(f: Func, g: Func, w: World, input: Env, c: nat, k: nat)
    requires forall i :: 0 < i < k ==> Inside(f, Run(g, w, RunOn(g, w, input, c), i))
    ensures forall i :: c < i < c + k ==> Inside(f, RunOn(g, w, input, i))
  {
    forall i | c < i < c + k ensures Inside(f, RunOn(g, w, input, i)) {
      RunOnAdd(g, w, input, c, i - c);
    }
  }

  lemma ContextDefined(f: Func, w: World, b: Label, ctx: Reg, input: Env, n: nat)
    requires WellFormed(f) && AvailIn(f, b, ctx) && input.Keys == f.args
    ensures var s := RunOn(f, w, input, n); s.At? && s.cur == b ==> ctx in s.env
  {
    hide Run, Step, AvailIn;
    var s := RunOn(f, w, input, n);
    if s.At? && s.cur == b {
      AvailableIsDefined(f, w, input, n, ctx);
    }
  }

  lemma RunOnNext(f: Func, w: World, input: Env, n: nat, n1: nat)
    requires n1 == n + 1
    ensures RunOn(f, w, input, n1) == Step(f, w, RunOn(f, w, input, n))
  {
    hide Step;
  }

  /** From matched states one old step leads to matched states. */
  lemma MatchedNext(f: Func, w: World, b: Label, ctx: Reg, input: Env, n: nat, n1: nat, c: nat, c1: nat)
    requires WellFormed(f) && b in f.blocks && ctx < f.nextReg && AvailIn(f, b, ctx) && input.Keys == f.args
    requires StateRelated(f, b, RunOn(f, w, input, n), RunOn(Duplicated(f, b, ctx), w, input, c))
    requires n1 == n + 1 && c1 == c + StepCost(RunOn(f, w, input, n), b)
    ensures StateRelated(f, b, RunOn(f, w, input, n1), RunOn(Duplicated(f, b, ctx), w, input, c1))
  {
    hide *;
    var s := RunOn(f, w, input, n);
    ContextDefined(f, w, b, ctx, input, n);
    DuplicateStep(f, w, b, ctx, s, RunOn(Duplicated(f, b, ctx), w, input, c));
    RunOnAdd(Duplicated(f, b, ctx), w, input, c, StepCost(s, b));
    RunOnNext(f, w, input, n, n1);
  }

  /** In between, the new run is inside the duplicated block. */
  lemma InsideNext(f: Func, w: World, b: Label, ctx: Reg, input: Env, n: nat, c: nat, c1: nat)
    requires WellFormed(f) && b in f.blocks && ctx < f.nextReg && AvailIn(f, b, ctx) && input.Keys == f.args
    requires StateRelated(f, b, RunOn(f, w, input, n), RunOn(Duplicated(f, b, ctx), w, input, c))
    requires c1 == c + StepCost(RunOn(f, w, input, n), b)
    ensures forall i :: c < i < c1 ==> Inside(f, RunOn(Duplicated(f, b, ctx), w, input, i))
  {
    hide *;
    var s := RunOn(f, w, input, n);
    ContextDefined(f, w, b, ctx, input, n);
    DuplicateStep(f, w, b, ctx, s, RunOn(Duplicated(f, b, ctx), w, input, c));
    InsideRun(f, Duplicated(f, b, ctx), w, input, c, StepCost(s, b));
  }

  lemma CostUnfold(f: Func, w: World, input: Env, b: Label, n: nat, n1: nat)
    requires n1 == n + 1
    ensures Cost(f, w, input, {b}, n1) == Cost(f, w, input, {b}, n) + StepCost(RunOn(f, w, input, n), b)
  {
  }

  lemma FirstMatched(f: Func, w: World, b: Label, ctx: Reg, input: Env, c: nat)
    requires WellFormed(f) && b in f.blocks && input.Keys == f.args && c == Cost(f, w, input, {b}, 0)
    ensures StateRelated(f, b, RunOn(f, w, input, 0), RunOn(Duplicated(f, b, ctx), w, input, c))
  {
    InitRelated(f, b, ctx, input);
  }

  /** Every state of the old run is matched by a state of the new run. */
  lemma {:induction false} DuplicateRun(f: Func, w: World, b: Label, ctx: Reg, input: Env, n: nat, c: nat)
    requires WellFormed(f) && b in f.blocks && ctx < f.nextReg && AvailIn(f, b, ctx) && input.Keys == f.args
    requires c == Cost(f, w, input, {b}, n)
    ensures StateRelated(f, b, RunOn(f, w, input, n), RunOn(Duplicated(f, b, ctx), w, input, c))
    decreases n
  {
    hide *;
    if n == 0 {
      FirstMatched(f, w, b, ctx, input, c);
    } else {
      var c0, k := Cost(f, w, input, {b}, n - 1), n - 1;
      CostUnfold(f, w, input, b, k, n);
      DuplicateRun(f, w, b, ctx, input, k, c0);
      MatchedNext(f, w, b, ctx, input, k, n, c0, c);
    }
  }

  // ---------- The list of targets ----------

  /** A block to duplicate and the context value chosen for it. */
  datatype Target = Target(block: Label, ctx: Reg)

  datatype Result = Result(f: Func, remap: Renaming)

  predicate TargetsExist(f: Func, targets: seq<Target>) {
    forall i :: 0 <= i < |targets| ==> targets[i].block in f.blocks
  }

  /** `duplicate` called on each target in turn; the table maps a replaced value to its PHI. */
  function DuplicateAll(f: Func, targets: seq<Target>): (r: Result)
    requires TargetsExist(f, targets)
    ensures f.blocks.Keys <= r.f.blocks.Keys
  {
    if targets == [] then Result(f, map[])
    else
      var n := |targets| - 1;
      var g := DuplicateAll(f, targets[..n]);
      NextResult(g, targets[n].block, targets[n].ctx)
  }

  /** The targets that the pass selects: distinct blocks, each with a value available on entry. */
  ghost predicate Selected(f: Func, targets: seq<Target>) {
    && TargetsExist(f, targets)
    && (forall i, j :: 0 <= i < j < |targets| ==> targets[i].block != targets[j].block)
    && (forall i :: 0 <= i < |targets| ==> targets[i].ctx < f.nextReg && AvailIn(f, targets[i].block, targets[i].ctx))
  }

  function Blocks(targets: seq<Target>): set<Label> {
    set i | 0 <= i < |targets| :: targets[i].block
  }

  /** Old blocks not yet duplicated still make their old definitions. */
  ghost predicate Untouched(f: Func, dup: set<Label>, g: Func) {
    forall c :: c in f.blocks && c !in dup ==>
      c in g.blocks && BodyDsts(g.blocks[c].body) == BodyDsts(f.blocks[c].body)
  }

  /** The table maps results of duplicated blocks to new registers. */
  ghost predicate TableOrigin(f: Func, dup: set<Label>, r: Result) {
    forall x :: x in r.remap ==>
      && f.nextReg <= r.remap[x] < r.f.nextReg
      && exists c :: c in dup && c in f.blocks && x in BodyDsts(f.blocks[c].body)
  }

  /** The table leads from a register to one that is available wherever it was. */
  ghost predicate AvailCarried(f: Func, r: Result) {
    forall c, x: Reg :: c in f.blocks && x < f.nextReg && AvailIn(f, c, x) ==> AvailIn(r.f, c, Rename(r.remap, x))
  }

  ghost predicate Extends(f: Func, g: Func) {
    && g.args == f.args && g.entry == f.entry
    && f.nextReg <= g.nextReg && f.nextLabel <= g.nextLabel && f.blocks.Keys <= g.blocks.Keys
  }

  /** What holds between calls of `duplicate`. */
  ghost predicate Threaded(f: Func, dup: set<Label>, r: Result) {
    && WellFormed(r.f) && Extends(f, r.f)
    && Untouched(f, dup, r.f) && TableOrigin(f, dup, r) && AvailCarried(f, r)
  }

  /** Looking up the extended table is looking up the table and then the new replacement. */
  lemma RemapCompose(f: Func, dup: set<Label>, r: Result, b: Label, x: Reg)
    requires UniqueDefs(f) && Bounded(f) && b in f.blocks && b in r.f.blocks && b !in dup && x < f.nextReg
    requires Untouched(f, dup, r.f) && TableOrigin(f, dup, r)
    ensures Rename(r.remap + Replaced(r.f, b), x) == Rename(Replaced(r.f, b), Rename(r.remap, x))
  {
    var body := r.f.blocks[b].body;
    NameMapKeys(body, PhiReg(r.f, 0), |body|);
    assert body[..|body|] == body;
    OldDefsBounded(f, b);
    if x in r.remap {
      var c :| c in dup && c in f.blocks && x in BodyDsts(f.blocks[c].body);
      assert Defs(f.blocks[c]) !! Defs(f.blocks[b]);
    }
  }

  lemma ReplacedRange(g: Func, b: Label, x: Reg)
    requires b in g.blocks && x in Replaced(g, b)
    ensures x in BodyDsts(g.blocks[b].body)
    ensures g.nextReg <= Replaced(g, b)[x] < g.nextReg + 1 + 3 * |g.blocks[b].body|
  {
    var body := g.blocks[b].body;
    NameMapKeys(body, PhiReg(g, 0), |body|);
    assert body[..|body|] == body;
    var i := NameMapValue(body, PhiReg(g, 0), |body|, x);
  }

  function NextResult(r: Result, b: Label, ctx: Reg): Result
    requires b in r.f.blocks
  {
    Result(Duplicated(r.f, b, Rename(r.remap, ctx)), r.remap + Replaced(r.f, b))
  }

  lemma UntouchedStep(f: Func, dup: set<Label>, r: Result, b: Label, ctx: Reg)
    requires Bounded(r.f) && b in r.f.blocks && Untouched(f, dup, r.f)
    ensures Untouched(f, dup + {b}, NextResult(r, b, ctx).f)
  {
    forall c | c in f.blocks && c !in dup + {b}
      ensures c in NextResult(r, b, ctx).f.blocks
      ensures BodyDsts(NextResult(r, b, ctx).f.blocks[c].body) == BodyDsts(f.blocks[c].body)
    {
      OtherDefs(r.f, b, Rename(r.remap, ctx), c);
    }
  }

  lemma TableOriginStep(f: Func, dup: set<Label>, r: Result, b: Label, ctx: Reg)
    requires b in f.blocks && b in r.f.blocks && b !in dup && f.nextReg <= r.f.nextReg
    requires Untouched(f, dup, r.f) && TableOrigin(f, dup, r)
    ensures TableOrigin(f, dup + {b}, NextResult(r, b, ctx))
  {
    var r' := NextResult(r, b, ctx);
    forall x | x in r'.remap
      ensures f.nextReg <= r'.remap[x] < r'.f.nextReg
      ensures exists c :: c in dup + {b} && c in f.blocks && x in BodyDsts(f.blocks[c].body)
    {
      if x in Replaced(r.f, b) {
        ReplacedRange(r.f, b, x);
        assert b in dup + {b};
      } else {
        assert x in r.remap;
        var c :| c in dup && c in f.blocks && x in BodyDsts(f.blocks[c].body);
        assert c in dup + {b};
      }
    }
  }

  lemma AvailCarriedStep(f: Func, dup: set<Label>, r: Result, b: Label, ctx: Reg)
    requires UniqueDefs(f) && Bounded(f) && b in f.blocks && b !in dup && f.blocks.Keys <= r.f.blocks.Keys
    requires Untouched(f, dup, r.f) && TableOrigin(f, dup, r) && AvailCarried(f, r)
    requires Sound(r.f, b, Rename(r.remap, ctx))
    ensures AvailCarried(f, NextResult(r, b, ctx))
  {
    var r' := NextResult(r, b, ctx);
    forall c, x: Reg | c in f.blocks && x < f.nextReg && AvailIn(f, c, x)
      ensures AvailIn(r'.f, c, Rename(r'.remap, x))
    {
      RemapCompose(f, dup, r, b, x);
      LabelBound(r.f, c);
      AvailAfter(r.f, b, Rename(r.remap, ctx), c, Rename(r.remap, x));
    }
  }

  /** One call of `duplicate` keeps everything the next one needs; the value handed to the condition
      is the current name of the chosen context value, and it is available there. */
  lemma ThreadedStep(f: Func, dup: set<Label>, r: Result, b: Label, ctx: Reg)
    requires WellFormed(f) && Threaded(f, dup, r) && b in f.blocks && b !in dup
    requires ctx < f.nextReg && AvailIn(f, b, ctx)
    ensures Rename(r.remap, ctx) < r.f.nextReg && AvailIn(r.f, b, Rename(r.remap, ctx))
    ensures Threaded(f, dup + {b}, NextResult(r, b, ctx))
  {
    assert Rename(r.remap, ctx) < r.f.nextReg;
    WellFormedAfter(r.f, b, Rename(r.remap, ctx));
    UntouchedStep(f, dup, r, b, ctx);
    TableOriginStep(f, dup, r, b, ctx);
    AvailCarriedStep(f, dup, r, b, ctx);
  }

  lemma BlocksSnoc(targets: seq<Target>)
    requires targets != []
    ensures Blocks(targets) == Blocks(targets[..|targets| - 1]) + {targets[|targets| - 1].block}
  {
    var n := |targets| - 1;
    forall l | l in Blocks(targets) ensures l in Blocks(targets[..n]) + {targets[n].block} {
      var i :| 0 <= i < |targets| && targets[i].block == l;
      assert i < n ==> targets[..n][i].block == l;
    }
    forall l | l in Blocks(targets[..n]) ensures l in Blocks(targets) {
      var i :| 0 <= i < n && targets[..n][i].block == l;
      assert targets[i].block == l;
    }
  }

  lemma SelectedPrefix(f: Func, targets: seq<Target>)
    requires Selected(f, targets) && targets != []
    ensures Selected(f, targets[..|targets| - 1])
    ensures targets[|targets| - 1].block !in Blocks(targets[..|targets| - 1])
  {
  }

  /** After any list of selected targets the function is well-formed and the table is right. */
  lemma {:induction false} DuplicateAllThreaded(f: Func, targets: seq<Target>)
    requires WellFormed(f) && Selected(f, targets)
    ensures Threaded(f, Blocks(targets), DuplicateAll(f, targets))
  {
    if targets != [] {
      var n := |targets| - 1;
      SelectedPrefix(f, targets);
      DuplicateAllThreaded(f, targets[..n]);
      BlocksSnoc(targets);
      ThreadedStep(f, Blocks(targets[..n]), DuplicateAll(f, targets[..n]), targets[n].block, targets[n].ctx);
    }
  }

  // ---------- Equality of behaviour ----------

  /** The new run is at the same block with the same trace, and the table leads from every old
      register to the same value; or both have ended in the same way. */
  ghost predicate SameState(f: Func, remap: Renaming, s: State, s': State) {
    if s.At? then s'.At? && s'.cur == s.cur && s'.trace == s.trace && Related(remap, f.nextReg, s.env, s'.env)
    else s' == s
  }

  lemma RelatedCompose(f: Func, dup: set<Label>, r: Result, b: Label, e: Env, e': Env, e'': Env)
    requires UniqueDefs(f) && Bounded(f) && b in f.blocks && b in r.f.blocks && b !in dup && f.nextReg <= r.f.nextReg
    requires Untouched(f, dup, r.f) && TableOrigin(f, dup, r)
    requires Related(r.remap, f.nextReg, e, e') && Related(Replaced(r.f, b), r.f.nextReg, e', e'')
    ensures Related(r.remap + Replaced(r.f, b), f.nextReg, e, e'')
  {
    var m := r.remap + Replaced(r.f, b);
    forall x: Reg | x < f.nextReg
      ensures (x in e <==> Rename(m, x) in e'') && (x in e ==> e[x] == e''[Rename(m, x)])
    {
      RemapCompose(f, dup, r, b, x);
      assert Rename(r.remap, x) < r.f.nextReg;
    }
  }

  ghost predicate Matched(f: Func, w: World, input: Env, dup: set<Label>, r: Result, n: nat) {
    && SameState(f, r.remap, RunOn(f, w, input, n), RunOn(r.f, w, input, Cost(f, w, input, dup, n)))
    && forall i :: Cost(f, w, input, dup, n) < i < Cost(f, w, input, dup, n + 1) ==> Inside(f, RunOn(r.f, w, input, i))
  }

  /** The visits to `b` cost the same counted in the old run or in the run duplicated so far. */
  lemma {:induction false} CostCompose(f: Func, w: World, input: Env, dup: set<Label>, r: Result, b: Label, n: nat)
    requires b < f.nextLabel && b !in dup
    requires forall k: nat :: k < n ==> Matched(f, w, input, dup, r, k)
    ensures Cost(r.f, w, input, {b}, Cost(f, w, input, dup, n)) == Cost(f, w, input, dup + {b}, n)
    decreases n
  {
    hide Step;
    if n > 0 {
      CostCompose(f, w, input, dup, r, b, n - 1);
      assert Matched(f, w, input, dup, r, n - 1);
      var c := Cost(f, w, input, dup, n - 1);
      var s := RunOn(f, w, input, n - 1);
      if s.At? && s.cur in dup {
        assert Inside(f, RunOn(r.f, w, input, c + 1)) && Inside(f, RunOn(r.f, w, input, c + 2));
        assert Cost(r.f, w, input, {b}, c + 3) == Cost(r.f, w, input, {b}, c + 2) + 1;
        assert Cost(r.f, w, input, {b}, c + 2) == Cost(r.f, w, input, {b}, c + 1) + 1;
      }
      assert Cost(r.f, w, input, {b}, c + 1)
             == Cost(r.f, w, input, {b}, c) + (if s.At? && s.cur == b then 3 else 1);
    }
  }

  lemma {:induction false} NoTargets(f: Func, w: World, input: Env, n: nat)
    ensures Cost(f, w, input, {}, n) == n
    ensures Matched(f, w, input, {}, Result(f, map[]), n)
    decreases n
  {
    hide Step;
    if n > 0 {
      NoTargets(f, w, input, n - 1);
    }
    assert Cost(f, w, input, {}, n + 1) == Cost(f, w, input, {}, n) + 1;
  }

  /** The place of a step of the new run among the steps it was expanded from. */
  lemma {:induction false} Locate(g: Func, w: World, input: Env, b: Label, lo: nat, hi: nat, i: nat) returns (x: nat)
    requires lo < hi && Cost(g, w, input, {b}, lo) < i < Cost(g, w, input, {b}, hi)
    ensures lo <= x < hi
    ensures Cost(g, w, input, {b}, x) <= i < Cost(g, w, input, {b}, x + 1)
    ensures i == Cost(g, w, input, {b}, x) ==> lo < x
    decreases hi - lo
  {
    if Cost(g, w, input, {b}, hi - 1) <= i {
      x := hi - 1;
    } else {
      x := Locate(g, w, input, b, lo, hi - 1, i);
    }
  }

  ghost predicate Extendable(f: Func, dup: set<Label>, r: Result, b: Label, ctx: Reg, input: Env) {
    && WellFormed(f) && Threaded(f, dup, r) && b in f.blocks && b !in dup && b in r.f.blocks
    && ctx < r.f.nextReg && AvailIn(r.f, b, ctx) && input.Keys == f.args
  }

  /** Matching composes with one more duplication. */
  lemma ComposeState(f: Func, w: World, input: Env, dup: set<Label>, r: Result, b: Label, ctx: Reg, n: nat)
    requires Extendable(f, dup, r, b, ctx, input)
    requires forall k: nat :: k <= n ==> Matched(f, w, input, dup, r, k)
    ensures SameState(f, r.remap + Replaced(r.f, b), RunOn(f, w, input, n),
                      RunOn(Duplicated(r.f, b, ctx), w, input, Cost(f, w, input, dup + {b}, n)))
  {
    hide Step, Duplicated, WellFormed, Run;
    var c := Cost(f, w, input, dup, n);
    var c' := Cost(r.f, w, input, {b}, c);
    assert b < f.nextLabel && UniqueDefs(f) && Bounded(f) by { WellFormedParts(f, b); }
    assert Matched(f, w, input, dup, r, n);
    CostCompose(f, w, input, dup, r, b, n);
    assert WellFormed(r.f);
    DuplicateRun(r.f, w, b, ctx, input, c, c');
    var s, s', s'' := RunOn(f, w, input, n), RunOn(r.f, w, input, c), RunOn(Duplicated(r.f, b, ctx), w, input, c');
    if s.At? {
      RelatedCompose(f, dup, r, b, s.env, s'.env, s''.env);
    }
  }

  lemma WellFormedParts(f: Func, b: Label)
    requires WellFormed(f)
    ensures UniqueDefs(f) && Bounded(f)
    ensures b in f.blocks ==> b < f.nextLabel
  {
  }

  lemma ComposeInside(f: Func, w: World, input: Env, dup: set<Label>, r: Result, b: Label, ctx: Reg, n: nat, i: nat)
    requires Extendable(f, dup, r, b, ctx, input)
    requires forall k: nat :: k <= n ==> Matched(f, w, input, dup, r, k)
    requires Cost(f, w, input, dup + {b}, n) < i < Cost(f, w, input, dup + {b}, n + 1)
    ensures Inside(f, RunOn(Duplicated(r.f, b, ctx), w, input, i))
  {
    hide Step, Duplicated, WellFormed, Run;
    assert b < f.nextLabel by { WellFormedParts(f, b); }
    CostCompose(f, w, input, dup, r, b, n);
    CostCompose(f, w, input, dup, r, b, n + 1);
    var lo, hi := Cost(f, w, input, dup, n), Cost(f, w, input, dup, n + 1);
    var x := Locate(r.f, w, input, b, lo, hi, i);
    var c := Cost(r.f, w, input, {b}, x);
    DuplicateRun(r.f, w, b, ctx, input, x, c);
    if i == c {
      assert Matched(f, w, input, dup, r, n);
      assert Inside(f, RunOn(r.f, w, input, x));
    } else {
      CostUnfold(r.f, w, input, b, x, x + 1);
      InsideNext(r.f, w, b, ctx, input, x, c, Cost(r.f, w, input, {b}, x + 1));
    }
  }

  lemma ComposeMatched(f: Func, w: World, input: Env, dup: set<Label>, r: Result, b: Label, ctx: Reg, n: nat)
    requires Extendable(f, dup, r, b, ctx, input)
    requires forall k: nat :: k <= n ==> Matched(f, w, input, dup, r, k)
    ensures Matched(f, w, input, dup + {b}, Result(Duplicated(r.f, b, ctx), r.remap + Replaced(r.f, b)), n)
  {
    hide Step, Duplicated, WellFormed, Run, SameState, Inside, Threaded;
    ComposeState(f, w, input, dup, r, b, ctx, n);
    forall i | Cost(f, w, input, dup + {b}, n) < i < Cost(f, w, input, dup + {b}, n + 1)
      ensures Inside(f, RunOn(Duplicated(r.f, b, ctx), w, input, i))
    {
      ComposeInside(f, w, input, dup, r, b, ctx, n, i);
    }
  }

  /** Whatever blocks are selected, every state of the old run is matched by a state of the run of the
      duplicated function: same block, same effects so far, and the table leads to the same values. */
  lemma {:induction false} DuplicateAllMatched(f: Func, w: World, input: Env, targets: seq<Target>, n: nat)
    requires WellFormed(f) && Selected(f, targets) && input.Keys == f.args
    ensures Matched(f, w, input, Blocks(targets), DuplicateAll(f, targets), n)
    decreases |targets|
  {
    hide WellFormed, Matched, Duplicated, Threaded;
    if targets == [] {
      assert Blocks(targets) == {};
      NoTargets(f, w, input, n);
    } else {
      var last := |targets| - 1;
      var r, b, ctx := DuplicateAll(f, targets[..last]), targets[last].block, targets[last].ctx;
      var dup := Blocks(targets[..last]);
      SelectedPrefix(f, targets);
      DuplicateAllThreaded(f, targets[..last]);
      BlocksSnoc(targets);
      ThreadedStep(f, dup, r, b, ctx);
      forall k: nat | k <= n ensures Matched(f, w, input, dup, r, k) {
        DuplicateAllMatched(f, w, input, targets[..last], k);
      }
      assert Extendable(f, dup, r, b, Rename(r.remap, ctx), input) by { ThreadedArgs(f, dup, r); }
      ComposeMatched(f, w, input, dup, r, b, Rename(r.remap, ctx), n);
    }
  }

  lemma ThreadedArgs(f: Func, dup: set<Label>, r: Result)
    requires Threaded(f, dup, r)
    ensures r.f.args == f.args
  {
  }

  lemma SelectedExist(f: Func, targets: seq<Target>)
    requires Selected(f, targets)
    ensures TargetsExist(f, targets)
  {
  }

  // ---------- What an observer sees ----------

  lemma {:induction false} TraceGrows(f: Func, w: World, s: State, n: nat)
    ensures s.trace <= Run(f, w, s, n).trace
    decreases n
  {
    if n > 0 {
      TraceGrows(f, w, s, n - 1);
      StepTraceGrows(f, w, Run(f, w, s, n - 1));
    }
  }

  lemma StepTraceGrows(f: Func, w: World, s: State)
    ensures s.trace <= Step(f, w, s).trace
  {
    if s.At? && s.cur in f.blocks {
      var e := ExecPhis(s.env, s.prev, f.blocks[s.cur].phis);
      if e.Some? {
        BodyTraceGrows(w, e.value, s.trace, f.blocks[s.cur].body);
      }
    }
  }

  lemma {:induction false} BodyTraceGrows(w: World, env: Env, trace: seq<Event>, body: seq<Instr>)
    ensures trace <= ExecBody(w, env, trace, body).trace
    decreases |body|
  {
    if body != [] {
      BodyTraceGrows(w, env, trace, body[..|body| - 1]);
    }
  }

  lemma RunLater(f: Func, w: World, input: Env, m: nat, n: nat)
    requires m <= n
    ensures RunOn(f, w, input, m).trace <= RunOn(f, w, input, n).trace
    ensures !RunOn(f, w, input, m).At? ==> RunOn(f, w, input, n) == RunOn(f, w, input, m)
  {
    hide Step;
    var s := RunOn(f, w, input, m);
    RunAdd(f, w, Init(f, input), m, n - m);
    TraceGrows(f, w, s, n - m);
    if !s.At? {
      RunFinished(f, w, s, n - m);
    }
  }

  /** `g` means what `f` means. On every input and for every outside world, within `slow * n` of its
      own steps `g` shows every effect that `f` shows in `n`, and it never shows one that `f` does
      not; and one ends if and only if the other does, in the same way. */
  ghost predicate SameMeaning(f: Func, g: Func, slow: nat) {
    && g.args == f.args
    && forall w: World, input: Env, n: nat :: input.Keys == f.args ==> SameRun(f, g, slow, w, input, n)
  }

  ghost predicate SameRun(f: Func, g: Func, slow: nat, w: World, input: Env, n: nat) {
    && RunOn(f, w, input, n).trace <= RunOn(g, w, input, slow * n).trace
    && RunOn(g, w, input, n).trace <= RunOn(f, w, input, n).trace
    && (!RunOn(f, w, input, n).At? ==> RunOn(g, w, input, slow * n) == RunOn(f, w, input, n))
    && (!RunOn(g, w, input, n).At? ==> RunOn(f, w, input, n) == RunOn(g, w, input, n))
  }

  lemma DuplicateAllSameRun(f: Func, w: World, input: Env, targets: seq<Target>, n: nat)
    requires WellFormed(f) && Selected(f, targets) && input.Keys == f.args
    ensures SameRun(f, DuplicateAll(f, targets).f, 3, w, input, n)
  {
    hide WellFormed, Step, Run, Selected, DuplicateAll;
    SelectedExist(f, targets);
    var r := DuplicateAll(f, targets);
    var g := r.f;
    var c := Cost(f, w, input, Blocks(targets), n);
    DuplicateAllMatched(f, w, input, targets, n);
    CostBounds(f, w, input, Blocks(targets), n);
    assert SameState(f, r.remap, RunOn(f, w, input, n), RunOn(g, w, input, c));
    RunLater(g, w, input, c, 3 * n);
    RunLater(g, w, input, n, c);
  }

  /** Duplicating any selected list of blocks preserves meaning, at most three steps for one. */
  lemma DuplicateAllPreserves(f: Func, targets: seq<Target>)
    requires WellFormed(f) && Selected(f, targets)
    ensures SameMeaning(f, DuplicateAll(f, targets).f, 3)
  {
    hide WellFormed, SameRun;
    DuplicateAllThreaded(f, targets);
    ThreadedArgs(f, Blocks(targets), DuplicateAll(f, targets));
    forall w: World, input: Env, n: nat | input.Keys == f.args
      ensures SameRun(f, DuplicateAll(f, targets).f, 3, w, input, n)
    {
      DuplicateAllSameRun(f, w, input, targets, n);
    }
  }
}
