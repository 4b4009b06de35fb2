/** The instrumented module runs like the original one, and its table holds exact counts. */
module CallSim {
  import opened Wrappers
  import opened CallModel

  /** What the passes were given. */
  datatype Setup = Setup(p: Program, incrCC: FuncId) {
    function IdMap(): map<FuncId, nat> { Ids(p.order) }

    function Emitted(code: Code): Code {
      EmitCode(IdMap(), p.bodies.Keys, incrCC, code)
    }

    function EmitOne(i: Inst): Code {
      Emit(IdMap(), p.bodies.Keys, incrCC, i)
    }
  }

  /** A module that does not know the runtime yet. */
  ghost predicate Ok(s: Setup) {
    WellFormed(s.p) && Plain(s.p) && s.incrCC !in s.p.order
  }

  lemma IdFacts(s: Setup)
    requires WellFormed(s.p)
    ensures s.IdMap().Keys == set f | f in s.p.order
    ensures forall i :: 0 <= i < |s.p.order| ==> s.IdMap()[s.p.order[i]] == i
    ensures forall f :: f in s.p.bodies ==> f in s.IdMap()
    ensures forall f :: f in s.IdMap() ==> s.IdMap()[f] < |s.p.order| && s.p.order[s.IdMap()[f]] == f
  {
    IdsOfOrder(s.p.order);
  }

  ghost function New(s: Setup): Program
    requires WellFormed(s.p)
  {
    IdFacts(s);
    Instrumented(s.p, s.incrCC)
  }

  lemma NewProgram(s: Setup)
    requires WellFormed(s.p)
    ensures New(s).order == s.p.order && New(s).bodies.Keys == s.p.bodies.Keys
  {
  }

  lemma OkParts(s: Setup)
    requires Ok(s)
    ensures WellFormed(s.p) && s.incrCC !in s.IdMap()
  {
    IdFacts(s);
  }

  // ---------- Positions ----------

  lemma {:induction false} EmittedAt(s: Setup, code: Code, k: nat)
    requires k < |code|
    ensures |s.Emitted(code[..k + 1])| == |s.Emitted(code[..k])| + |s.EmitOne(code[k])| <= |s.Emitted(code)|
    ensures forall j :: 0 <= j < |s.EmitOne(code[k])| ==>
      s.Emitted(code)[|s.Emitted(code[..k])| + j] == s.EmitOne(code[k])[j]
    decreases |code|
  {
    var n := |code| - 1;
    assert code[..k + 1][..k] == code[..k];
    if k < n {
      EmittedAt(s, code[..n], k);
      assert code[..n][..k] == code[..k] && code[..n][..k + 1] == code[..k + 1];
    } else {
      assert code[..k + 1] == code;
    }
  }

  lemma EmittedEnd(s: Setup, code: Code)
    ensures s.Emitted(code[..|code|]) == s.Emitted(code)
  {
    assert code[..|code|] == code;
  }

  predicate ValidFrame(p: Program, fr: Frame) {
    fr.f in p.bodies && fr.block < |p.bodies[fr.f]| && fr.pc <= |p.bodies[fr.f][fr.block]|
  }

  /** Frames of a run: inside a block or right behind it, or at a block that is not there. */
  predicate FrameOk(p: Program, fr: Frame) {
    ValidFrame(p, fr) || fr.f !in p.bodies || fr.block >= |p.bodies[fr.f]|
  }

  /** Where the instrumented code for instruction `pc` starts, its own increment included. */
  function StartPos(s: Setup, fr: Frame): nat {
    if ValidFrame(s.p, fr)
    then (if fr.block == 0 then 1 else 0) + |s.Emitted(s.p.bodies[fr.f][fr.block][..fr.pc])|
    else fr.pc
  }

  function Moved(s: Setup, fr: Frame): Frame {
    fr.(pc := StartPos(s, fr))
  }

  lemma NewCode(s: Setup, f: FuncId, b: nat)
    requires Ok(s) && f in s.p.bodies && b < |s.p.bodies[f]|
    ensures f in s.IdMap() && f in New(s).bodies && b < |New(s).bodies[f]|
    ensures New(s).bodies[f][b] == Prefix(s.IdMap(), f, b) + s.Emitted(s.p.bodies[f][b])
  {
    OkParts(s);
    IdFacts(s);
    EmitPrefix(s.IdMap(), s.p.bodies.Keys, s.incrCC, f, b, s.p.bodies[f][b]);
  }

  lemma EmitOneCases(s: Setup, i: Inst)
    ensures var id := Counted(s.IdMap(), s.p.bodies.Keys, s.incrCC, i);
      s.EmitOne(i) == if id.Some? then [Incr(id.value), i] else [i]
  {
  }

  /** The new block holds what instruction `pc` emits at its start position. */
  lemma MovedCode(s: Setup, fr: Frame, j: nat)
    requires Ok(s) && At(s.p, fr).Some? && j < |s.EmitOne(At(s.p, fr).value)|
    ensures At(New(s), fr.(pc := StartPos(s, fr) + j)) == Some(s.EmitOne(At(s.p, fr).value)[j])
    ensures ValidFrame(s.p, Next(fr)) && StartPos(s, Next(fr)) == StartPos(s, fr) + |s.EmitOne(At(s.p, fr).value)|
  {
    hide *;
    OkParts(s);
    AtBlock(s.p, fr);
    NewCode(s, fr.f, fr.block);
    var code := s.p.bodies[fr.f][fr.block];
    EmittedAt(s, code, fr.pc);
    assert s.Emitted(code)[|s.Emitted(code[..fr.pc])| + j] == s.EmitOne(code[fr.pc])[j];
    PrefixSize(s.IdMap(), fr.f, fr.block);
    StartPosIs(s, fr);
    StartPosIs(s, Next(fr));
    AtThere(New(s), fr.(pc := StartPos(s, fr) + j));
  }

  lemma PrefixSize(ids: map<FuncId, nat>, f: FuncId, block: nat)
    requires f in ids
    ensures |Prefix(ids, f, block)| == if block == 0 then 1 else 0
  {
  }

  lemma AtBlock(p: Program, fr: Frame)
    requires At(p, fr).Some?
    ensures ValidFrame(p, fr) && ValidFrame(p, Next(fr)) && Next(fr) == fr.(pc := fr.pc + 1)
    ensures fr.f in p.bodies && fr.block < |p.bodies[fr.f]| && fr.pc < |p.bodies[fr.f][fr.block]|
    ensures At(p, fr).value == p.bodies[fr.f][fr.block][fr.pc]
  {
  }

  lemma AtThere(p: Program, fr: Frame)
    requires fr.f in p.bodies && fr.block < |p.bodies[fr.f]| && fr.pc < |p.bodies[fr.f][fr.block]|
    ensures At(p, fr) == Some(p.bodies[fr.f][fr.block][fr.pc])
  {
  }

  lemma StartPosIs(s: Setup, fr: Frame)
    requires ValidFrame(s.p, fr)
    ensures fr.f in s.p.bodies && fr.block < |s.p.bodies[fr.f]| && fr.pc <= |s.p.bodies[fr.f][fr.block]|
    ensures StartPos(s, fr) == (if fr.block == 0 then 1 else 0) + |s.Emitted(s.p.bodies[fr.f][fr.block][..fr.pc])|
  {
  }

  /** At the start position of an instruction the new code has the instruction, after its increment if
      it has one; the next instruction starts right behind. */
  lemma MovedAt(s: Setup, fr: Frame)
    requires Ok(s) && At(s.p, fr).Some?
    ensures FrameOk(s.p, Next(fr)) && Moved(s, fr).f == fr.f && fr.f in s.p.bodies
    ensures var i, fr', id := At(s.p, fr).value, Moved(s, fr), Counted(s.IdMap(), s.p.bodies.Keys, s.incrCC, At(s.p, fr).value);
      if id.Some? then
        At(New(s), fr') == Some(Incr(id.value)) && At(New(s), Next(fr')) == Some(i) && Moved(s, Next(fr)) == Next(Next(fr'))
      else At(New(s), fr') == Some(i) && Moved(s, Next(fr)) == Next(fr')
  {
    AtBlock(s.p, fr);
    hide Ok, WellFormed, New, At, StartPos, Emit, Counted;
    EmitOneCases(s, At(s.p, fr).value);
    MovedCode(s, fr, 0);
    if |s.EmitOne(At(s.p, fr).value)| == 2 {
      MovedCode(s, fr, 1);
    }
  }

  lemma MovedNone(s: Setup, fr: Frame)
    requires Ok(s) && FrameOk(s.p, fr) && At(s.p, fr).None?
    ensures At(New(s), Moved(s, fr)).None? && Moved(s, fr).f == fr.f
    ensures fr.f !in s.p.bodies ==> Moved(s, fr) == fr && FrameOk(s.p, Next(fr)) && Moved(s, Next(fr)) == Next(fr)
  {
    IdFacts(s);
    if ValidFrame(s.p, fr) {
      NewCode(s, fr.f, fr.block);
      EmittedEnd(s, s.p.bodies[fr.f][fr.block]);
    }
  }

  lemma EntryAt(s: Setup, f: FuncId)
    requires Ok(s) && f in s.p.bodies
    ensures f in s.IdMap() && At(New(s), Frame(f, 0, 0)) == Some(Incr(s.IdMap()[f]))
    ensures Moved(s, Frame(f, 0, 0)) == Next(Frame(f, 0, 0)) && FrameOk(s.p, Frame(f, 0, 0))
  {
    IdFacts(s);
    assert s.p.bodies[f] != [];
    NewCode(s, f, 0);
    assert s.p.bodies[f][0][..0] == [];
  }

  lemma JumpTarget(s: Setup, f: FuncId, b: nat)
    requires b > 0
    ensures Moved(s, Frame(f, b, 0)) == Frame(f, b, 0) && FrameOk(s.p, Frame(f, b, 0))
  {
    if ValidFrame(s.p, Frame(f, b, 0)) {
      assert s.p.bodies[f][b][..0] == [];
    }
  }

  // ---------- The counts ----------

  /** What the table entry of `f` is to hold: entries into a defined function, executed direct calls of
      one that is only declared. */
  function CountOf(p: Program, f: FuncId, trace: seq<Event>): nat {
    if f in p.bodies then multiset(trace)[Enter(f)] else multiset(trace)[External(f, true)]
  }

  /** The counts, in the 64 bits of a counter. */
  ghost predicate Exact(p: Program, trace: seq<Event>, table: seq<nat>) {
    |table| == |p.order| && forall i :: 0 <= i < |table| ==> table[i] == CountOf(p, p.order[i], trace) % COUNTS
  }

  lemma WrapNext(n: nat)
    ensures (n % COUNTS + 1) % COUNTS == (n + 1) % COUNTS
  {
  }

  lemma FirstCount()
    ensures (0 + 1) % COUNTS == 1
  {
  }

  lemma Bump(s: Setup, trace: seq<Event>, table: seq<nat>, f: FuncId, e: Event)
    requires WellFormed(s.p) && Exact(s.p, trace, table) && f in s.IdMap()
    requires e == Called(s.p, f, true)
    ensures s.IdMap()[f] < |table|
    ensures Exact(s.p, trace + [e], table[s.IdMap()[f] := (table[s.IdMap()[f]] + 1) % COUNTS])
  {
    IdFacts(s);
    assert multiset(trace + [e]) == multiset(trace) + multiset{e};
    WrapNext(CountOf(s.p, f, trace));
    hide WellFormed, Ids;
    var table' := table[s.IdMap()[f] := (table[s.IdMap()[f]] + 1) % COUNTS];
    forall i | 0 <= i < |table'| ensures table'[i] == CountOf(s.p, s.p.order[i], trace + [e]) % COUNTS {
      assert table[i] == CountOf(s.p, s.p.order[i], trace) % COUNTS;
    }
  }

  lemma NoBump(p: Program, trace: seq<Event>, table: seq<nat>, e: Event)
    requires Exact(p, trace, table)
    requires e.Exec? || (e.External? && !e.direct)
    ensures Exact(p, trace + [e], table)
  {
    assert multiset(trace + [e]) == multiset(trace) + multiset{e};
    forall i | 0 <= i < |table| ensures table[i] == CountOf(p, p.order[i], trace + [e]) % COUNTS {
      assert table[i] == CountOf(p, p.order[i], trace) % COUNTS;
    }
  }

  lemma NoCounts(p: Program, table: seq<nat>)
    requires |table| == |p.order| && forall i :: 0 <= i < |table| ==> table[i] == 0
    ensures Exact(p, [], table)
  {
  }

  // ---------- The simulation ----------

  function MovedStack(s: Setup, stack: seq<Frame>): (r: seq<Frame>)
    ensures |r| == |stack|
    ensures forall i :: 0 <= i < |stack| ==> r[i] == Moved(s, stack[i])
  {
    seq(|stack|, i requires 0 <= i < |stack| => Moved(s, stack[i]))
  }

  ghost predicate FramesOk(p: Program, stack: seq<Frame>) {
    forall i :: 0 <= i < |stack| ==> FrameOk(p, stack[i])
  }

  /** Dropping the increments from the new configuration gives the old one. */
  ghost predicate Follows<D>(s: Setup, c: Config<D>, c': Config<D>) {
    && FramesOk(s.p, c.stack) && c'.stack == MovedStack(s, c.stack) && c'.data == c.data && c'.trace == c.trace
  }

  /** The same, and the table is exact. */
  ghost predicate Erases<D>(s: Setup, c: Config<D>, c': Config<D>) {
    Follows(s, c, c') && Exact(s.p, c.trace, c'.table)
  }

  ghost predicate SameView<D>(c: Config<D>, d: Config<D>) {
    c.trace == d.trace && c.data == d.data
  }

  /** Between the two new steps for one old step: the increment is done and its call is not, or a
      function has been entered and its increment is to come. */
  ghost predicate Halfway<D>(s: Setup, c: Config<D>, d: Config<D>, c': Config<D>) {
    || (SameView(c', c) && (exists f :: d.trace == c.trace + [External(f, true)]) && Exact(s.p, d.trace, c'.table))
    || (SameView(c', d) && (exists f :: d.trace == c.trace + [Enter(f)]) && Exact(s.p, c.trace, c'.table))
  }

  /** The new steps for one old step: one more for a counted call and for entering a function. */
  function StepCost<D>(s: Setup, w: World<D>, c: Config<D>): nat {
    if c.stack == [] then 1
    else
      var fr := c.stack[|c.stack| - 1];
      match At(s.p, fr)
      case Some(Call(Direct(_))) => 2
      case Some(Call(Indirect)) => EnterCost(s, w.target(c.data))
      case None => if fr.f in s.p.bodies then 1 else OutsideCost(s, w.outside(fr.f, fr.pc, c.data))
      case _ => 1
  }

  function EnterCost(s: Setup, f: FuncId): nat {
    if f in s.p.bodies then 2 else 1
  }

  function OutsideCost<D>(s: Setup, o: Outcome<D>): nat {
    if o.CallBack? then EnterCost(s, o.f) else 1
  }

  lemma MovedSnoc(s: Setup, below: seq<Frame>, fr: Frame)
    ensures MovedStack(s, below + [fr]) == MovedStack(s, below) + [Moved(s, fr)]
    ensures FramesOk(s.p, below + [fr]) <==> FramesOk(s.p, below) && FrameOk(s.p, fr)
  {
    assert (below + [fr])[|below|] == fr;
    assert forall i :: 0 <= i < |below| ==> (below + [fr])[i] == below[i];
  }

  lemma RunOne<D>(p: Program, w: World<D>, c: Config<D>)
    ensures Run(p, w, c, 1) == Step(p, w, c)
    ensures Run(p, w, c, 2) == Step(p, w, Step(p, w, c))
  {
    hide Step;
    assert Run(p, w, c, 1) == Step(p, w, Run(p, w, c, 0));
  }

  /** What a step with top frame `fr` does. */
  lemma StepOn<D>(p: Program, w: World<D>, c: Config<D>, below: seq<Frame>, fr: Frame)
    requires c.stack == below + [fr]
    ensures var d := Step(p, w, c);
      match At(p, fr)
      case None => d == if fr.f in p.bodies then c else Outside(p, w, c, below, fr)
      case Some(Call(Direct(f))) => d == Invoke(p, c, below, Next(fr), f, true)
      case Some(Call(Indirect)) => d == Invoke(p, c, below, Next(fr), w.target(c.data), false)
      case Some(Incr(id)) =>
        id < |c.table| ==> d == c.(stack := below + [Next(fr)], table := c.table[id := (c.table[id] + 1) % COUNTS])
      case Some(Other(code)) =>
        d == c.(stack := below + [Next(fr)], data := w.exec(code, c.data), trace := c.trace + [Exec(code)])
      case Some(Jump(code)) => d == c.(stack := below + [Frame(fr.f, 1 + w.branch(code, c.data), 0)])
      case Some(Ret) => d == c.(stack := below)
  {
    assert c.stack[..|c.stack| - 1] == below && c.stack[|c.stack| - 1] == fr;
    hide At, Invoke, Outside;
  }

  lemma InvokeIs<D>(p: Program, c: Config<D>, below: seq<Frame>, fr: Frame, f: FuncId, direct: bool)
    ensures Invoke(p, c, below, fr, f, direct) ==
      c.(stack := below + [fr] + [Frame(f, 0, 0)],
         trace := c.trace + [if f in p.bodies then Enter(f) else External(f, direct)])
  {
  }

  lemma MakeErases<D>(s: Setup, c: Config<D>, c': Config<D>, below: seq<Frame>, fr: Frame)
    requires c.stack == below + [fr] && c'.stack == MovedStack(s, below) + [Moved(s, fr)] && c'.data == c.data
    requires FramesOk(s.p, below) && FrameOk(s.p, fr) && c'.trace == c.trace && Exact(s.p, c.trace, c'.table)
    ensures Erases(s, c, c')
  {
    hide FramesOk, FrameOk, MovedStack, Moved, Exact;
    MovedSnoc(s, below, fr);
  }

  /** The configuration split into its top frame and the rest, on both sides. */
  ghost predicate Tops<D>(s: Setup, c: Config<D>, c': Config<D>, below: seq<Frame>, fr: Frame) {
    && c.stack == below + [fr] && c'.stack == MovedStack(s, below) + [Moved(s, fr)]
    && c'.data == c.data && c'.trace == c.trace && Exact(s.p, c.trace, c'.table)
    && FramesOk(s.p, below) && FrameOk(s.p, fr)
  }

  lemma TopsParts<D>(s: Setup, c: Config<D>, c': Config<D>, below: seq<Frame>, fr: Frame)
    requires Tops(s, c, c', below, fr)
    ensures c.stack == below + [fr] && c'.stack == MovedStack(s, below) + [Moved(s, fr)]
    ensures c'.data == c.data && c'.trace == c.trace && Exact(s.p, c.trace, c'.table)
    ensures FramesOk(s.p, below) && FrameOk(s.p, fr)
  {
  }

  lemma SplitTop<D>(s: Setup, c: Config<D>, c': Config<D>, below: seq<Frame>, fr: Frame)
    requires Erases(s, c, c') && c.stack != [] && below == c.stack[..|c.stack| - 1] && fr == c.stack[|c.stack| - 1]
    ensures Tops(s, c, c', below, fr)
  {
    hide FramesOk, FrameOk, MovedStack, Moved, Exact;
    assert c.stack == below + [fr];
    MovedSnoc(s, below, fr);
  }

  // ---------- Calls ----------

  /** The increment at the entry of a function. */
  lemma EntryStep<D>(s: Setup, w: World<D>, d': Config<D>, below': seq<Frame>, f: FuncId)
    requires Ok(s) && f in s.p.bodies && d'.stack == below' + [Frame(f, 0, 0)] && |d'.table| == |s.p.order|
    ensures f in s.IdMap() && s.IdMap()[f] < |d'.table|
    ensures var id := s.IdMap()[f];
      Step(New(s), w, d') ==
        d'.(stack := below' + [Moved(s, Frame(f, 0, 0))], table := d'.table[id := (d'.table[id] + 1) % COUNTS])
  {
    hide *;
    OkParts(s);
    IdFacts(s);
    EntryAt(s, f);
    StepOn(New(s), w, d', below', Frame(f, 0, 0));
  }

  lemma TableSize(p: Program, trace: seq<Event>, table: seq<nat>)
    requires Exact(p, trace, table)
    ensures |table| == |p.order|
  {
  }

  /** Entering a defined function, then the increment at its entry. */
  lemma Entered<D>(s: Setup, w: World<D>, c: Config<D>, c': Config<D>, below: seq<Frame>, fr: Frame, f: FuncId, direct: bool)
    requires Ok(s) && f in s.p.bodies && FramesOk(s.p, below) && FrameOk(s.p, fr)
    requires c'.data == c.data && c'.trace == c.trace && Exact(s.p, c.trace, c'.table)
    ensures var d, d' := Invoke(s.p, c, below, fr, f, direct), Invoke(New(s), c', MovedStack(s, below), Moved(s, fr), f, direct);
      && Erases(s, d, Step(New(s), w, d'))
      && SameView(d', d) && d.trace == c.trace + [Enter(f)] && d'.table == c'.table
  {
    hide *;
    OkParts(s);
    NewProgram(s);
    var below' := MovedStack(s, below) + [Moved(s, fr)];
    var d, d' := Invoke(s.p, c, below, fr, f, direct), Invoke(New(s), c', MovedStack(s, below), Moved(s, fr), f, direct);
    InvokeIs(s.p, c, below, fr, f, direct);
    InvokeIs(New(s), c', MovedStack(s, below), Moved(s, fr), f, direct);
    MakeView(d', d);
    EntryAt(s, f);
    TableSize(s.p, c.trace, c'.table);
    EntryStep(s, w, d', below', f);
    CalledIs(s.p, f, true);
    Bump(s, c.trace, c'.table, f, Enter(f));
    MovedSnoc(s, below, fr);
    MakeErases(s, d, Step(New(s), w, d'), below + [fr], Frame(f, 0, 0));
  }

  lemma MakeView<D>(c: Config<D>, d: Config<D>)
    ensures SameView(c, d) <==> c.trace == d.trace && c.data == d.data
  {
  }

  lemma CalledIs(p: Program, f: FuncId, direct: bool)
    ensures Called(p, f, direct) == if f in p.bodies then Enter(f) else External(f, direct)
  {
  }

  lemma ExternalFrame(s: Setup, f: FuncId)
    requires f !in s.p.bodies
    ensures Moved(s, Frame(f, 0, 0)) == Frame(f, 0, 0) && FrameOk(s.p, Frame(f, 0, 0))
  {
  }

  /** Calling a function that is only declared. */
  lemma LeftModule<D>(s: Setup, w: World<D>, c: Config<D>, c': Config<D>, below: seq<Frame>, fr: Frame, f: FuncId, direct: bool)
    requires Ok(s) && f !in s.p.bodies && FramesOk(s.p, below) && FrameOk(s.p, fr)
    requires c'.data == c.data && c'.trace == c.trace && Exact(s.p, c.trace + [External(f, direct)], c'.table)
    ensures Erases(s, Invoke(s.p, c, below, fr, f, direct),
                   Invoke(New(s), c', MovedStack(s, below), Moved(s, fr), f, direct))
  {
    hide *;
    OkParts(s);
    NewProgram(s);
    InvokeIs(s.p, c, below, fr, f, direct);
    InvokeIs(New(s), c', MovedStack(s, below), Moved(s, fr), f, direct);
    ExternalFrame(s, f);
    MovedSnoc(s, below, fr);
    MakeErases(s, Invoke(s.p, c, below, fr, f, direct), Invoke(New(s), c', MovedStack(s, below), Moved(s, fr), f, direct),
               below + [fr], Frame(f, 0, 0));
  }

  /** A call that is not direct: one step, or two if it enters a function. */
  lemma Uncounted<D>(s: Setup, w: World<D>, c: Config<D>, c': Config<D>, below: seq<Frame>, fr: Frame, f: FuncId)
    requires Ok(s) && FramesOk(s.p, below) && FrameOk(s.p, fr)
    requires c'.data == c.data && c'.trace == c.trace && Exact(s.p, c.trace, c'.table)
    ensures var d, d' := Invoke(s.p, c, below, fr, f, false), Invoke(New(s), c', MovedStack(s, below), Moved(s, fr), f, false);
      if f in s.p.bodies then Erases(s, d, Step(New(s), w, d')) && Halfway(s, c, d, d') else Erases(s, d, d')
  {
    hide *;
    OkParts(s);
    if f in s.p.bodies {
      Entered(s, w, c, c', below, fr, f, false);
      MakeHalfway(s, c, Invoke(s.p, c, below, fr, f, false), Invoke(New(s), c', MovedStack(s, below), Moved(s, fr), f, false), f);
    } else {
      NoBump(s.p, c.trace, c'.table, External(f, false));
      LeftModule(s, w, c, c', below, fr, f, false);
    }
  }

  lemma MakeHalfway<D>(s: Setup, c: Config<D>, d: Config<D>, c': Config<D>, f: FuncId)
    ensures SameView(c', c) && d.trace == c.trace + [External(f, true)] && Exact(s.p, d.trace, c'.table) ==> Halfway(s, c, d, c')
    ensures SameView(c', d) && d.trace == c.trace + [Enter(f)] && Exact(s.p, c.trace, c'.table) ==> Halfway(s, c, d, c')
  {
  }

  /** What one old step becomes. */
  ghost predicate Matched<D>(s: Setup, w: World<D>, c: Config<D>, c': Config<D>, cost: nat)
    requires WellFormed(s.p)
  {
    var d, d' := Step(s.p, w, c), Step(New(s), w, c');
    if cost == 2 then Erases(s, d, Step(New(s), w, d')) && Halfway(s, c, d, d') else cost == 1 && Erases(s, d, d')
  }

  lemma MakeMatched<D>(s: Setup, w: World<D>, c: Config<D>, c': Config<D>, cost: nat)
    requires WellFormed(s.p)
    ensures var d, d' := Step(s.p, w, c), Step(New(s), w, c');
      && (cost == 1 && Erases(s, d, d') ==> Matched(s, w, c, c', cost))
      && (cost == 2 && Erases(s, d, Step(New(s), w, d')) && Halfway(s, c, d, d') ==> Matched(s, w, c, c', cost))
  {
  }

  lemma DirectCounted(s: Setup, fr: Frame, f: FuncId)
    requires Ok(s) && At(s.p, fr) == Some(Call(Direct(f)))
    ensures f in s.IdMap()
    ensures Counted(s.IdMap(), s.p.bodies.Keys, s.incrCC, Call(Direct(f))) == if f in s.p.bodies then None else Some(s.IdMap()[f])
  {
    IdFacts(s);
    assert f in s.p.order;
  }

  /** A direct call of a declared function: the increment, then the call. */
  lemma DirectExternal<D>(s: Setup, w: World<D>, c: Config<D>, c': Config<D>, below: seq<Frame>, fr: Frame, f: FuncId)
    requires Ok(s) && Tops(s, c, c', below, fr) && At(s.p, fr) == Some(Call(Direct(f))) && f !in s.p.bodies
    ensures Matched(s, w, c, c', 2)
  {
    hide *;
    OkParts(s);
    TopsParts(s, c, c', below, fr);
    DirectCounted(s, fr, f);
    MovedAt(s, fr);
    CalledIs(s.p, f, true);
    Bump(s, c.trace, c'.table, f, External(f, true));
    var below' := MovedStack(s, below);
    StepOn(s.p, w, c, below, fr);
    StepOn(New(s), w, c', below', Moved(s, fr));
    var d' := Step(New(s), w, c');
    StepOn(New(s), w, d', below', Next(Moved(s, fr)));
    InvokeIs(s.p, c, below, Next(fr), f, true);
    MakeView(d', c);
    MakeHalfway(s, c, Step(s.p, w, c), d', f);
    LeftModule(s, w, c, d', below, Next(fr), f, true);
    MakeMatched(s, w, c, c', 2);
  }

  /** A direct call of a defined function, which counts itself. */
  lemma DirectInternal<D>(s: Setup, w: World<D>, c: Config<D>, c': Config<D>, below: seq<Frame>, fr: Frame, f: FuncId)
    requires Ok(s) && Tops(s, c, c', below, fr) && At(s.p, fr) == Some(Call(Direct(f))) && f in s.p.bodies
    ensures Matched(s, w, c, c', 2)
  {
    hide *;
    OkParts(s);
    TopsParts(s, c, c', below, fr);
    DirectCounted(s, fr, f);
    MovedAt(s, fr);
    StepOn(s.p, w, c, below, fr);
    StepOn(New(s), w, c', MovedStack(s, below), Moved(s, fr));
    Entered(s, w, c, c', below, Next(fr), f, true);
    MakeHalfway(s, c, Step(s.p, w, c), Step(New(s), w, c'), f);
    MakeMatched(s, w, c, c', 2);
  }

  lemma NotCounted(s: Setup, i: Inst)
    requires !(i.Call? && i.callee.Direct?) && !i.Incr?
    ensures Counted(s.IdMap(), s.p.bodies.Keys, s.incrCC, i) == None
  {
  }

  lemma IndirectCall<D>(s: Setup, w: World<D>, c: Config<D>, c': Config<D>, below: seq<Frame>, fr: Frame)
    requires Ok(s) && Tops(s, c, c', below, fr) && At(s.p, fr) == Some(Call(Indirect))
    ensures Matched(s, w, c, c', EnterCost(s, w.target(c.data)))
  {
    hide *;
    OkParts(s);
    TopsParts(s, c, c', below, fr);
    NotCounted(s, Call(Indirect));
    MovedAt(s, fr);
    var f := w.target(c.data);
    EnterCostIs(s, f);
    StepOn(s.p, w, c, below, fr);
    StepOn(New(s), w, c', MovedStack(s, below), Moved(s, fr));
    Uncounted(s, w, c, c', below, Next(fr), f);
    MakeMatched(s, w, c, c', EnterCost(s, f));
  }

  lemma EnterCostIs(s: Setup, f: FuncId)
    ensures EnterCost(s, f) == if f in s.p.bodies then 2 else 1
  {
  }

  // ---------- Functions outside the module ----------

  lemma OutsideCases<D>(s: Setup, p: Program, w: World<D>, c: Config<D>, below: seq<Frame>, fr: Frame)
    ensures match w.outside(fr.f, fr.pc, c.data)
      case Back(data) => Outside(p, w, c, below, fr) == c.(stack := below, data := data)
      case CallBack(data, f) => Outside(p, w, c, below, fr) == Invoke(p, c.(data := data), below, Next(fr), f, false)
    ensures match w.outside(fr.f, fr.pc, c.data)
      case Back(_) => OutsideCost(s, w.outside(fr.f, fr.pc, c.data)) == 1
      case CallBack(_, f) => OutsideCost(s, w.outside(fr.f, fr.pc, c.data)) == EnterCost(s, f)
  {
  }

  /** A declared function returns, or calls back. */
  lemma OutsideStep<D>(s: Setup, w: World<D>, c: Config<D>, c': Config<D>, below: seq<Frame>, fr: Frame)
    requires Ok(s) && Tops(s, c, c', below, fr) && At(s.p, fr).None? && fr.f !in s.p.bodies
    ensures Matched(s, w, c, c', OutsideCost(s, w.outside(fr.f, fr.pc, c.data)))
  {
    hide *;
    OkParts(s);
    NewProgram(s);
    TopsParts(s, c, c', below, fr);
    MovedNone(s, fr);
    var below' := MovedStack(s, below);
    StepOn(s.p, w, c, below, fr);
    StepOn(New(s), w, c', below', fr);
    OutsideCases(s, s.p, w, c, below, fr);
    OutsideCases(s, New(s), w, c', below', fr);
    match w.outside(fr.f, fr.pc, c.data)
    case Back(data) =>
      StackErases(s, c.(stack := below, data := data), c'.(stack := below', data := data));
      MakeMatched(s, w, c, c', 1);
    case CallBack(data, f) =>
      CallBackStep(s, w, c, c', data, below, fr, f);
  }

  lemma CallBackStep<D>(s: Setup, w: World<D>, c: Config<D>, c': Config<D>, data: D, below: seq<Frame>, fr: Frame, f: FuncId)
    requires Ok(s) && Tops(s, c, c', below, fr) && FrameOk(s.p, Next(fr)) && Moved(s, Next(fr)) == Next(fr)
    requires Step(s.p, w, c) == Invoke(s.p, c.(data := data), below, Next(fr), f, false)
    requires Step(New(s), w, c') == Invoke(New(s), c'.(data := data), MovedStack(s, below), Next(fr), f, false)
    ensures Matched(s, w, c, c', EnterCost(s, f))
  {
    hide *;
    OkParts(s);
    TopsParts(s, c, c', below, fr);
    EnterCostIs(s, f);
    if f in s.p.bodies {
      Entered(s, w, c.(data := data), c'.(data := data), below, Next(fr), f, false);
      MakeHalfway(s, c, Step(s.p, w, c), Step(New(s), w, c'), f);
    } else {
      Uncounted(s, w, c.(data := data), c'.(data := data), below, Next(fr), f);
    }
    MakeMatched(s, w, c, c', EnterCost(s, f));
  }

  lemma StackErases<D>(s: Setup, c: Config<D>, c': Config<D>)
    requires c'.stack == MovedStack(s, c.stack) && FramesOk(s.p, c.stack)
    requires c'.data == c.data && c'.trace == c.trace && Exact(s.p, c.trace, c'.table)
    ensures Erases(s, c, c')
  {
  }

  // ---------- All other instructions ----------

  lemma OtherStep<D>(s: Setup, w: World<D>, c: Config<D>, c': Config<D>, below: seq<Frame>, fr: Frame)
    requires Ok(s) && Tops(s, c, c', below, fr) && At(s.p, fr).Some? && At(s.p, fr).value.Other?
    ensures Matched(s, w, c, c', 1)
  {
    hide *;
    OkParts(s);
    TopsParts(s, c, c', below, fr);
    NotCounted(s, At(s.p, fr).value);
    MovedAt(s, fr);
    StepOn(s.p, w, c, below, fr);
    StepOn(New(s), w, c', MovedStack(s, below), Moved(s, fr));
    NoBump(s.p, c.trace, c'.table, Exec(At(s.p, fr).value.code));
    MakeErases(s, Step(s.p, w, c), Step(New(s), w, c'), below, Next(fr));
    MakeMatched(s, w, c, c', 1);
  }

  lemma JumpStep<D>(s: Setup, w: World<D>, c: Config<D>, c': Config<D>, below: seq<Frame>, fr: Frame)
    requires Ok(s) && Tops(s, c, c', below, fr) && At(s.p, fr).Some? && At(s.p, fr).value.Jump?
    ensures Matched(s, w, c, c', 1)
  {
    hide *;
    OkParts(s);
    TopsParts(s, c, c', below, fr);
    NotCounted(s, At(s.p, fr).value);
    MovedAt(s, fr);
    StepOn(s.p, w, c, below, fr);
    StepOn(New(s), w, c', MovedStack(s, below), Moved(s, fr));
    var b := 1 + w.branch(At(s.p, fr).value.code, c.data);
    JumpTarget(s, fr.f, b);
    MakeErases(s, Step(s.p, w, c), Step(New(s), w, c'), below, Frame(fr.f, b, 0));
    MakeMatched(s, w, c, c', 1);
  }

  lemma RetStep<D>(s: Setup, w: World<D>, c: Config<D>, c': Config<D>, below: seq<Frame>, fr: Frame)
    requires Ok(s) && Tops(s, c, c', below, fr) && At(s.p, fr) == Some(Ret)
    ensures Matched(s, w, c, c', 1)
  {
    hide *;
    OkParts(s);
    TopsParts(s, c, c', below, fr);
    NotCounted(s, Ret);
    MovedAt(s, fr);
    StepOn(s.p, w, c, below, fr);
    StepOn(New(s), w, c', MovedStack(s, below), Moved(s, fr));
    StackErases(s, Step(s.p, w, c), Step(New(s), w, c'));
    MakeMatched(s, w, c, c', 1);
  }

  /** Behind the end of a block, or at a block that is not there, nothing happens. */
  lemma StuckStep<D>(s: Setup, w: World<D>, c: Config<D>, c': Config<D>, below: seq<Frame>, fr: Frame)
    requires Ok(s) && Tops(s, c, c', below, fr) && At(s.p, fr).None? && fr.f in s.p.bodies
    ensures Matched(s, w, c, c', 1)
  {
    hide *;
    OkParts(s);
    NewProgram(s);
    TopsParts(s, c, c', below, fr);
    MovedNone(s, fr);
    StepOn(s.p, w, c, below, fr);
    StepOn(New(s), w, c', MovedStack(s, below), Moved(s, fr));
    MakeErases(s, c, c', below, fr);
    MakeMatched(s, w, c, c', 1);
  }

  lemma NotIncr(s: Setup, fr: Frame)
    requires Ok(s) && At(s.p, fr).Some?
    ensures !At(s.p, fr).value.Incr?
  {
  }

  lemma CostOn<D>(s: Setup, w: World<D>, c: Config<D>, fr: Frame)
    requires c.stack != [] && fr == c.stack[|c.stack| - 1]
    ensures StepCost(s, w, c) ==
      match At(s.p, fr)
      case Some(Call(Direct(_))) => 2
      case Some(Call(Indirect)) => EnterCost(s, w.target(c.data))
      case None => if fr.f in s.p.bodies then 1 else OutsideCost(s, w.outside(fr.f, fr.pc, c.data))
      case _ => 1
  {
    hide At, EnterCost, OutsideCost;
  }

  /** One old step is matched by `StepCost` new ones. */
  lemma StepMatched<D>(s: Setup, w: World<D>, c: Config<D>, c': Config<D>)
    requires Ok(s) && Erases(s, c, c')
    ensures WellFormed(s.p) && Matched(s, w, c, c', StepCost(s, w, c))
  {
    hide *;
    OkParts(s);
    if c.stack == [] {
      NothingLeft(s, w, c, c');
      MakeMatched(s, w, c, c', 1);
    } else {
      var below, fr := c.stack[..|c.stack| - 1], c.stack[|c.stack| - 1];
      SplitTop(s, c, c', below, fr);
      CostOn(s, w, c, fr);
      match At(s.p, fr)
      case None => if fr.f in s.p.bodies { StuckStep(s, w, c, c', below, fr); } else { OutsideStep(s, w, c, c', below, fr); }
      case Some(Call(Direct(f))) =>
        if f in s.p.bodies { DirectInternal(s, w, c, c', below, fr, f); } else { DirectExternal(s, w, c, c', below, fr, f); }
      case Some(Call(Indirect)) => IndirectCall(s, w, c, c', below, fr);
      case Some(Incr(_)) => NotIncr(s, fr);
      case Some(Other(_)) => OtherStep(s, w, c, c', below, fr);
      case Some(Jump(_)) => JumpStep(s, w, c, c', below, fr);
      case Some(Ret) => RetStep(s, w, c, c', below, fr);
    }
  }

  lemma NothingLeft<D>(s: Setup, w: World<D>, c: Config<D>, c': Config<D>)
    requires WellFormed(s.p) && Erases(s, c, c') && c.stack == []
    ensures Step(s.p, w, c) == c && Step(New(s), w, c') == c' && StepCost(s, w, c) == 1
  {
  }

  lemma MatchedParts<D>(s: Setup, w: World<D>, c: Config<D>, c': Config<D>, cost: nat)
    requires WellFormed(s.p) && Matched(s, w, c, c', cost)
    ensures var d, d' := Step(s.p, w, c), Step(New(s), w, c');
      if cost == 2 then Erases(s, d, Step(New(s), w, d')) && Halfway(s, c, d, d') else cost == 1 && Erases(s, d, d')
  {
  }

  /** One old step is matched by one or two new ones, which `StepCost` tells. */
  lemma StepErases<D>(s: Setup, w: World<D>, c: Config<D>, c': Config<D>)
    requires Ok(s) && Erases(s, c, c')
    ensures WellFormed(s.p) && Erases(s, Step(s.p, w, c), Run(New(s), w, c', StepCost(s, w, c)))
    ensures 1 <= StepCost(s, w, c) <= 2
    ensures StepCost(s, w, c) == 2 ==> Halfway(s, c, Step(s.p, w, c), Step(New(s), w, c'))
  {
    hide *;
    StepMatched(s, w, c, c');
    MatchedParts(s, w, c, c', StepCost(s, w, c));
    RunOne(New(s), w, c');
  }

  // ---------- Whole runs ----------

  function RunFrom<D>(p: Program, w: World<D>, main: FuncId, data: D, n: nat): Config<D> {
    Run(p, w, Start(main, data, |p.order|), n)
  }

  lemma RunNext<D>(p: Program, w: World<D>, main: FuncId, data: D, n: nat)
    ensures RunFrom(p, w, main, data, n + 1) == Step(p, w, RunFrom(p, w, main, data, n))
  {
    hide Step, Start;
  }

  /** The new steps for `n` old ones, the increment for entering `main` first. */
  function Cost<D>(s: Setup, w: World<D>, main: FuncId, data: D, n: nat): nat {
    if n == 0 then 1
    else Cost(s, w, main, data, n - 1) + StepCost(s, w, RunFrom(s.p, w, main, data, n - 1))
  }

  lemma {:induction false} RunAdd<D>(p: Program, w: World<D>, main: FuncId, data: D, m: nat, n: nat)
    ensures RunFrom(p, w, main, data, m + n) == Run(p, w, RunFrom(p, w, main, data, m), n)
    decreases n
  {
    hide Step, Start;
    if n > 0 {
      RunAdd(p, w, main, data, m, n - 1);
    }
  }

  /** The start, and the increment for entering `main`. */
  lemma StartErases<D>(s: Setup, w: World<D>, main: FuncId, data: D)
    requires Ok(s) && main in s.p.bodies
    ensures Erases(s, RunFrom(s.p, w, main, data, 0), RunFrom(New(s), w, main, data, 1))
    ensures var c, c' := RunFrom(s.p, w, main, data, 0), RunFrom(New(s), w, main, data, 0);
      SameView(c', c) && c.trace == [Enter(main)] && Exact(s.p, [], c'.table)
  {
    hide *;
    OkParts(s);
    NewProgram(s);
    var c, c' := RunFrom(s.p, w, main, data, 0), RunFrom(New(s), w, main, data, 0);
    StartIs(s.p, w, main, data);
    StartIs(New(s), w, main, data);
    MakeView(c', c);
    NoCounts(s.p, c'.table);
    EntryAt(s, main);
    EntryStep(s, w, c', [], main);
    RunNext(New(s), w, main, data, 0);
    CalledIs(s.p, main, true);
    Bump(s, [], c'.table, main, Enter(main));
    assert [] + [Enter(main)] == [Enter(main)];
    NoFrames(s);
    MakeErases(s, c, Step(New(s), w, c'), [], Frame(main, 0, 0));
  }

  lemma NoFrames(s: Setup)
    ensures MovedStack(s, []) == [] && FramesOk(s.p, [])
  {
  }

  lemma StartIs<D>(p: Program, w: World<D>, main: FuncId, data: D)
    ensures var c := RunFrom(p, w, main, data, 0);
      && c.stack == [] + [Frame(main, 0, 0)] && c.data == data && c.trace == [Enter(main)]
      && |c.table| == |p.order| && forall i :: 0 <= i < |c.table| ==> c.table[i] == 0
  {
    assert [] + [Frame(main, 0, 0)] == [Frame(main, 0, 0)];
  }

  /** Dropping the increments from a run of the instrumented module gives the run of the original one,
      and at every point the table holds the exact counts. */
  lemma {:induction false} InstrumentedRun<D>(s: Setup, w: World<D>, main: FuncId, data: D, n: nat)
    requires Ok(s) && main in s.p.bodies
    ensures WellFormed(s.p)
    ensures Erases(s, RunFrom(s.p, w, main, data, n), RunFrom(New(s), w, main, data, Cost(s, w, main, data, n)))
    decreases n
  {
    hide *;
    OkParts(s);
    CostZero(s, w, main, data);
    if n == 0 {
      StartErases(s, w, main, data);
    } else {
      InstrumentedRun(s, w, main, data, n - 1);
      var c0 := Cost(s, w, main, data, n - 1);
      var c := RunFrom(s.p, w, main, data, n - 1);
      StepErases(s, w, c, RunFrom(New(s), w, main, data, c0));
      RunNext(s.p, w, main, data, n - 1);
      CostNext(s, w, main, data, n - 1);
      RunAdd(New(s), w, main, data, c0, StepCost(s, w, c));
    }
  }

  lemma CostZero<D>(s: Setup, w: World<D>, main: FuncId, data: D)
    ensures Cost(s, w, main, data, 0) == 1
  {
  }

  lemma CostNext<D>(s: Setup, w: World<D>, main: FuncId, data: D, n: nat)
    ensures Cost(s, w, main, data, n + 1) == Cost(s, w, main, data, n) + StepCost(s, w, RunFrom(s.p, w, main, data, n))
  {
    hide StepCost, RunFrom;
  }

  /** In particular: whenever the instrumented module has run as far as `n` old steps, it has shown the
      same events, and the table entry of each function is its number of entries if the function is
      defined, and of executed direct calls if it is only declared. */
  lemma ExactCounts<D>(s: Setup, w: World<D>, main: FuncId, data: D, n: nat, f: FuncId)
    requires Ok(s) && main in s.p.bodies && f in s.p.order
    ensures WellFormed(s.p)
    ensures var c, c' := RunFrom(s.p, w, main, data, n), RunFrom(New(s), w, main, data, Cost(s, w, main, data, n));
      && c'.trace == c.trace && c'.data == c.data
      && f in s.IdMap() && s.IdMap()[f] < |c'.table|
      && c'.table[s.IdMap()[f]] ==
           (if f in s.p.bodies then multiset(c.trace)[Enter(f)] else multiset(c.trace)[External(f, true)]) % 0x1_0000_0000_0000_0000
  {
    hide Ok, New, RunFrom, Cost, FramesOk, MovedStack, WellFormed;
    OkParts(s);
    InstrumentedRun(s, w, main, data, n);
    IdFacts(s);
  }

  // ---------- Every point of the instrumented run ----------

  lemma {:induction false} Locate<D>(s: Setup, w: World<D>, main: FuncId, data: D, m: nat) returns (n: nat)
    requires Ok(s) && main in s.p.bodies && m >= 1
    ensures n < m && Cost(s, w, main, data, n) <= m < Cost(s, w, main, data, n + 1) <= Cost(s, w, main, data, n) + 2
    decreases m
  {
    hide *;
    CostZero(s, w, main, data);
    CostGrows(s, w, main, data, 0);
    if m == 1 {
      n := 0;
    } else {
      n := Locate(s, w, main, data, m - 1);
      CostGrows(s, w, main, data, n);
      CostGrows(s, w, main, data, n + 1);
      if Cost(s, w, main, data, n + 1) <= m {
        n := n + 1;
      }
    }
  }

  lemma CostGrows<D>(s: Setup, w: World<D>, main: FuncId, data: D, n: nat)
    requires Ok(s) && main in s.p.bodies
    ensures Cost(s, w, main, data, n) < Cost(s, w, main, data, n + 1) <= Cost(s, w, main, data, n) + 2
  {
    hide *;
    InstrumentedRun(s, w, main, data, n);
    StepErases(s, w, RunFrom(s.p, w, main, data, n), RunFrom(New(s), w, main, data, Cost(s, w, main, data, n)));
    CostNext(s, w, main, data, n);
  }

  /** What the table holds when the instrumented run shows the view of `n` old steps: the counts for
      it; or already the call that comes next; or not yet the entry that came last. */
  ghost predicate TableAt<D>(s: Setup, w: World<D>, main: FuncId, data: D, n: nat, table: seq<nat>) {
    var trace := RunFrom(s.p, w, main, data, n).trace;
    || Exact(s.p, trace, table)
    || (exists f ::
          RunFrom(s.p, w, main, data, n + 1).trace == trace + [External(f, true)] && Exact(s.p, trace + [External(f, true)], table))
    || (exists f, before :: trace == before + [Enter(f)] && Exact(s.p, before, table))
  }

  lemma TableAtOnce<D>(s: Setup, w: World<D>, main: FuncId, data: D, n: nat, c': Config<D>)
    requires Erases(s, RunFrom(s.p, w, main, data, n), c')
    ensures SameView(c', RunFrom(s.p, w, main, data, n)) && TableAt(s, w, main, data, n, c'.table)
  {
    hide RunFrom, MovedStack, FramesOk, Exact;
  }

  lemma TableBehind<D>(s: Setup, w: World<D>, main: FuncId, data: D, n: nat, before: seq<Event>, f: FuncId, table: seq<nat>)
    requires RunFrom(s.p, w, main, data, n).trace == before + [Enter(f)] && Exact(s.p, before, table)
    ensures TableAt(s, w, main, data, n, table)
  {
    hide RunFrom, Exact;
  }

  lemma TableHalfway<D>(s: Setup, w: World<D>, main: FuncId, data: D, n: nat, c': Config<D>) returns (k: nat)
    requires Halfway(s, RunFrom(s.p, w, main, data, n), RunFrom(s.p, w, main, data, n + 1), c')
    ensures n <= k <= n + 1 && SameView(c', RunFrom(s.p, w, main, data, k)) && TableAt(s, w, main, data, k, c'.table)
  {
    hide RunFrom, Exact;
    var c, d := RunFrom(s.p, w, main, data, n), RunFrom(s.p, w, main, data, n + 1);
    if SameView(c', c) && (exists f :: d.trace == c.trace + [External(f, true)]) && Exact(s.p, d.trace, c'.table) {
      k := n;
    } else {
      k := n + 1;
      var f :| d.trace == c.trace + [Enter(f)];
      TableBehind(s, w, main, data, k, c.trace, f, c'.table);
    }
  }

  /** The instrumented module never shows anything that the original one does not: at every point of its
      run, the events and the data are those of some point of the original run, and the table differs
      from the exact counts at most by the one increment that is due or has just been made. */
  lemma EveryPoint<D>(s: Setup, w: World<D>, main: FuncId, data: D, m: nat) returns (n: nat)
    requires Ok(s) && main in s.p.bodies
    ensures WellFormed(s.p) && n <= m && SameView(RunFrom(New(s), w, main, data, m), RunFrom(s.p, w, main, data, n))
    ensures TableAt(s, w, main, data, n, RunFrom(New(s), w, main, data, m).table)
  {
    hide *;
    OkParts(s);
    if m == 0 {
      n := 0;
      StartErases(s, w, main, data);
      assert [] + [Enter(main)] == [Enter(main)];
      TableBehind(s, w, main, data, 0, [], main, RunFrom(New(s), w, main, data, 0).table);
    } else {
      n := Locate(s, w, main, data, m);
      InstrumentedRun(s, w, main, data, n);
      var c' := RunFrom(New(s), w, main, data, Cost(s, w, main, data, n));
      if m == Cost(s, w, main, data, n) {
        TableAtOnce(s, w, main, data, n, c');
      } else {
        StepErases(s, w, RunFrom(s.p, w, main, data, n), c');
        RunNext(s.p, w, main, data, n);
        CostNext(s, w, main, data, n);
        RunNext(New(s), w, main, data, m - 1);
        n := TableHalfway(s, w, main, data, n, Step(New(s), w, c'));
      }
    }
  }

  // ---------- A module that declares the counter function ----------

  /** If the module declares the runtime's counter function itself, every function entry is counted for
      that function too, so its entry is wrong from the start of `main` on. */
  lemma DeclaredCounter<D>(s: Setup, w: World<D>, main: FuncId, data: D)
    requires WellFormed(s.p) && s.incrCC in s.p.order && s.incrCC !in s.p.bodies && main in s.p.bodies
    ensures s.incrCC in s.IdMap()
    ensures var c' := RunFrom(New(s), w, main, data, 2);
      && c'.trace == [Enter(main)] && s.IdMap()[s.incrCC] < |c'.table| && c'.table[s.IdMap()[s.incrCC]] == 1
      && CountOf(s.p, s.incrCC, c'.trace) == 0 && !Exact(s.p, c'.trace, c'.table)
  {
    hide *;
    IdFacts(s);
    NewProgram(s);
    DeclaredEntry(s, main);
    FirstCount();
    var c' := RunFrom(New(s), w, main, data, 0);
    StartIs(New(s), w, main, data);
    RunNext(New(s), w, main, data, 0);
    RunNext(New(s), w, main, data, 1);
    StepOn(New(s), w, c', [], Frame(main, 0, 0));
    StepOn(New(s), w, Step(New(s), w, c'), [], Next(Frame(main, 0, 0)));
    DeclaredWrong(s, main, RunFrom(New(s), w, main, data, 2).table);
  }

  lemma DeclaredWrong(s: Setup, main: FuncId, table: seq<nat>)
    requires WellFormed(s.p) && s.incrCC in s.p.order && s.incrCC !in s.p.bodies && |table| == |s.p.order|
    requires s.incrCC in s.IdMap() && s.IdMap()[s.incrCC] < |table| && table[s.IdMap()[s.incrCC]] == 1
    ensures CountOf(s.p, s.incrCC, [Enter(main)]) == 0 && !Exact(s.p, [Enter(main)], table)
  {
    IdFacts(s);
  }

  lemma DeclaredEntry(s: Setup, f: FuncId)
    requires WellFormed(s.p) && s.incrCC in s.p.order && s.incrCC !in s.p.bodies && f in s.p.bodies
    ensures f in s.IdMap() && s.incrCC in s.IdMap() && s.IdMap()[f] != s.IdMap()[s.incrCC]
    ensures At(New(s), Frame(f, 0, 0)) == Some(Incr(s.IdMap()[s.incrCC]))
    ensures At(New(s), Next(Frame(f, 0, 0))) == Some(Incr(s.IdMap()[f]))
  {
    IdFacts(s);
    DeclaredCode(s, f);
    hide Ids, WellFormed, New;
  }

  lemma DeclaredCode(s: Setup, f: FuncId)
    requires WellFormed(s.p) && s.incrCC in s.p.order && s.incrCC !in s.p.bodies && f in s.p.bodies
    ensures f in s.IdMap() && s.incrCC in s.IdMap() && f in New(s).bodies && |New(s).bodies[f]| > 0
    ensures |New(s).bodies[f][0]| >= 2 && New(s).bodies[f][0][0] == Incr(s.IdMap()[s.incrCC])
    ensures New(s).bodies[f][0][1] == Incr(s.IdMap()[f])
  {
    IdFacts(s);
    assert s.p.bodies[f] != [];
    var code := s.p.bodies[f][0];
    assert New(s).bodies[f][0] == s.Emitted(Prefix(s.IdMap(), f, 0) + code);
    EmitPrefix(s.IdMap(), s.p.bodies.Keys, s.incrCC, f, 0, code);
    hide EmitCode, Ids, New;
    assert s.EmitOne(Incr(s.IdMap()[f])) == [Incr(s.IdMap()[s.incrCC]), Incr(s.IdMap()[f])];
  }
}
