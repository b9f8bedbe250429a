/** A program on which the conversion loses a nonvolatile register: one callee leaves it
    changed for a later one, and a callee between them that saves it leaves its own value in
    the context. */
module NonvolatilePassed {
  import opened Registers
  import opened Programs
  import opened Liveness
  import opened CallGraph
  import opened Analysis
  import opened Machine
  import opened CallFacts
  import opened Noninterference
  import opened Transform
  import opened TargetMachine
  import opened Simulation
  import opened StraightLines

  const CALLER: Name := Named("caller")
  const SETTER: Name := Named("setter")
  const SAVER: Name := Named("saver")
  const READER: Name := Named("reader")
  const R14: Reg := R(14)

  lemma OneNonvolatile(s: set<Reg>)
    requires s <= {R14}
    ensures s * NONVOLATILE == s == NONVOLATILE * s
    ensures R14 in NONVOLATILE && Saveable(R14)
  {
  }

  lemma NoVolatile(r: Reg)
    ensures r in NONVOLATILE ==> !Volatile(r)
  {
  }

  // ------------------------------------------------------------ the program and its solution

  /** The setter leaves r14 changed, the saver saves it and uses it to call the reader, and the
      reader reads it. The caller calls the setter, the saver and the reader and does not name it. */
  function Passing(): Program {
    Program(map[
      CALLER := Function([CallTo(SETTER, 1), CallTo(SAVER, 2), CallTo(READER, 3), LEAVE], {}, {}, {}),
      SETTER := Function([Does({}, {R14}, 1), LEAVE], {R14}, {R14}, {}),
      SAVER := Function([Does({}, {R14}, 1), CallTo(READER, 2), LEAVE], {R14}, {R14}, {R14}),
      READER := Function([Does({R14}, {}, 1), LEAVE], {R14}, {}, {})], NONVOLATILE, map[], NONVOLATILE)
  }

  /** The sets of its equations when the setter returns these registers. */
  function PassingSets(back: set<Reg>): Solution {
    Solution(NORETURN_IMPORTS, map[CALLER := {R14}, SETTER := {R14}, SAVER := {}, READER := {}],
      map[CALLER := {R14} - back, SETTER := back - {R14}, SAVER := {}, READER := {R14}],
      map[CALLER := {}, SETTER := back, SAVER := {}, READER := {}],
      map[CALLER := [{R14} - back, {R14}, {R14}, {}], SETTER := [back - {R14}, back], SAVER := [{}, {R14}, {}],
        READER := [{R14}, {}]], {}, {})
  }

  function PassedSolution(): Solution {
    Solution(NORETURN_IMPORTS, map[CALLER := {R14}, SETTER := {R14}, SAVER := {}, READER := {}],
      map[CALLER := {}, SETTER := {}, SAVER := {}, READER := {R14}],
      map[CALLER := {}, SETTER := {R14}, SAVER := {}, READER := {}],
      map[CALLER := [{}, {R14}, {R14}, {}], SETTER := [{}, {R14}], SAVER := [{}, {R14}, {}],
        READER := [{R14}, {}]], {}, {})
  }

  lemma PassedSolutionIs()
    ensures PassingSets({R14}) == PassedSolution()
  {
    assert {R14} - {R14} == {};
  }

  /** The setter sets r14 to 1 and the saver to 2; the reader notes it. */
  function TwoSet(): Meaning {
    Meaning(
      (f: Name, i: nat, c: File, w: World) =>
        if f == SETTER then Effect(map[R14 := 1], w) else if f == SAVER then Effect(map[R14 := 2], w)
          else Effect(map[], Noted(At(c, R14))),
      (f: Name, i: nat, c: File, w: World) => 0,
      (f: Name, i: nat, c: File, w: World) => w,
      (f: Name, i: nat, c: File, w: World) => Named("nowhere"),
      (f: Name, i: nat, c: File, w: World) => w,
      (g: Name, c: File, w: World) => HostStops(w))
  }

  lemma PassedLines()
    ensures Lines(Passing()) && WellFormed(Passing())
    ensures CALLER != SETTER && SETTER != SAVER && CALLER != SAVER && READER != CALLER && READER != SETTER
      && READER != SAVER
  {
    hide Line, Selected, NONVOLATILE;
    ShortLine(Does({}, {R14}, 1));
    ShortLine(Does({R14}, {}, 1));
    LongLine(Does({}, {R14}, 1), CallTo(READER, 2));
    LongestLine(CallTo(SETTER, 1), CallTo(SAVER, 2), CallTo(READER, 3));
    ClassesSelected();
    LinesWellFormed(Passing());
  }

  lemma PassedLeave()
    ensures CalleesLeave(Passing(), NORETURN_IMPORTS, PassedSolution().clobbers, CALLER) == {R14}
    ensures CalleesLeave(Passing(), NORETURN_IMPORTS, PassedSolution().clobbers, SETTER) == {}
    ensures CalleesLeave(Passing(), NORETURN_IMPORTS, PassedSolution().clobbers, SAVER) == {}
    ensures CalleesLeave(Passing(), NORETURN_IMPORTS, PassedSolution().clobbers, READER) == {}
  {
    hide NORETURN_IMPORTS, CalleesOf;
    PassedCallees();
    LeavesFrom(Passing(), NORETURN_IMPORTS, PassedSolution().clobbers, CALLER, SETTER, R14);
  }

  lemma PassedClobbers()
    ensures IsClobbers(Passing(), NORETURN_IMPORTS, PassedSolution().clobbers)
  {
    hide CalleesLeave, NORETURN_IMPORTS;
    PassedLeave();
  }

  lemma PassedCallees()
    ensures CalleesOf(Passing().functions[CALLER].nodes) == {SETTER, SAVER, READER}
      && CalleesOf(Passing().functions[SAVER].nodes) == {READER}
    ensures CalleesOf(Passing().functions[SETTER].nodes) == {} && CalleesOf(Passing().functions[READER].nodes) == {}
    ensures {CALLER, SETTER, SAVER, READER} !! NORETURN_IMPORTS
  {
    hide CalleesOf;
    CalleesShort(Does({}, {R14}, 1));
    CalleesShort(Does({R14}, {}, 1));
    CalleesLong(Does({}, {R14}, 1), CallTo(READER, 2));
    CalleesLongest(CallTo(SETTER, 1), CallTo(SAVER, 2), CallTo(READER, 3));
  }

  lemma PassedLeast()
    ensures IsLeastClobbers(Passing(), NORETURN_IMPORTS, PassedSolution().clobbers)
  {
    hide NORETURN_IMPORTS, CalleesOf, CalleesLeave, IsClobbers;
    PassedClobbers();
    forall other: RegSets | IsClobbers(Passing(), NORETURN_IMPORTS, other)
      ensures SetsBelow(PassedSolution().clobbers, other) {
      PassedBelow(other);
    }
  }

  lemma PassedBelow(other: RegSets)
    requires IsClobbers(Passing(), NORETURN_IMPORTS, other)
    ensures SetsBelow(PassedSolution().clobbers, other)
  {
    hide NORETURN_IMPORTS, CalleesOf, CalleesLeave;
    PassedCallees();
    assert R14 in other[SETTER];
    LeavesFrom(Passing(), NORETURN_IMPORTS, other, CALLER, SETTER, R14);
    assert R14 in other[CALLER];
  }

  lemma PassingFlow(back: set<Reg>, f: Name)
    requires back <= {R14} && f in Passing().functions
    ensures Flows(Passing(), PassingSets(back), f)
  {
    hide Line, NONVOLATILE, NORETURN_IMPORTS;
    OneNonvolatile({R14} - back);
    OneNonvolatile(back - {R14});
    OneNonvolatile({R14});
    PassedNames(f);
    if f == CALLER {
      PassingCaller(back);
    }
  }

  lemma PassedNames(f: Name)
    ensures f in Passing().functions <==> f in {CALLER, SETTER, SAVER, READER}
  {
  }

  lemma PassingCaller(back: set<Reg>)
    requires back <= {R14} && {R14} - back == ({R14} - back) * NONVOLATILE
    ensures Flows(Passing(), PassingSets(back), CALLER)
  {
    hide Line, NONVOLATILE, NORETURN_IMPORTS;
  }

  lemma PassingAreSets(back: set<Reg>)
    requires back <= {R14}
    ensures LineSets(Passing(), PassingSets(back))
  {
    hide Line, Lines, Flows, WellFormed, NONVOLATILE, IsLeastClobbers;
    PassedLines();
    PassedLeast();
    forall f | f in Passing().functions ensures Flows(Passing(), PassingSets(back), f) {
      PassingFlow(back, f);
    }
    ReadsNone();
  }

  lemma ReadsNone()
    ensures IndirectReads(Passing()) == {}
  {
  }

  /** Only the setter leaves something changed, so only of it something is asked. */
  lemma PassingAsks(s: Solution, f: Name, i: nat, r: Reg)
    requires Round(Passing(), s) && Asks(Passing(), s, f, i, r) && Passing().functions[f].nodes[i].kind == CALL
    ensures Passing().functions[f].nodes[i].callee == SETTER && r == R14
  {
    hide Line, Lines, Round, ReadAfter, LiveAfter, WellFormed, LineSets, NONVOLATILE;
    PassedLines();
    PassingAreSets({});
    RoundOfLines(Passing(), s, PassingSets({}));
    NoVolatile(r);
  }

  lemma PassingClosed(targets: seq<Name>)
    ensures ClosedUnderAsking(Passing(), targets, true, PassedSolution().ret, {})
  {
    hide Round, Asks;
    forall s, f, i, g, r | Round(Passing(), s) && Grows(s.ret, PassedSolution().ret)
      && AsksDirectly(Passing(), s, f, i, g, r)
      ensures r in Lookup(PassedSolution().ret, g)
    {
      PassingAskedOf(s, f, i, r);
    }
  }

  lemma PassingAskedOf(s: Solution, f: Name, i: nat, r: Reg)
    requires Round(Passing(), s) && Asks(Passing(), s, f, i, r) && Passing().functions[f].nodes[i].kind == CALL
    ensures r in Lookup(PassedSolution().ret, Passing().functions[f].nodes[i].callee)
  {
    hide Round, Needed;
    PassingAsks(s, f, i, r);
  }

  /** With nothing returned yet, the caller asks the setter: the register is live after it. */
  lemma PassingFirst()
    ensures Round(Passing(), PassingSets({})) && AsksDirectly(Passing(), PassingSets({}), CALLER, 0, SETTER, R14)
  {
    hide *;
    PassingAreSets({});
    LineSetsRound(Passing(), PassingSets({}));
    PassingLiveFirst();
    PassingNeeds(PassingSets({}));
  }

  lemma PassingLiveFirst()
    ensures CALLER in PassingSets({}).livebefore && R14 in LiveAfter(Passing(), PassingSets({}), CALLER, 0)
    ensures PassingSets({}).noreturn == NORETURN_IMPORTS && PassingSets({}).clobbers == PassedSolution().clobbers
  {
    hide Out, NONVOLATILE;
    OutOfOne(1, PassingSets({}).livebefore[CALLER]);
  }

  lemma PassingNeeds(s: Solution)
    requires CALLER in s.livebefore && R14 in LiveAfter(Passing(), s, CALLER, 0)
    requires s.noreturn == NORETURN_IMPORTS && s.clobbers == PassedSolution().clobbers
    ensures AsksDirectly(Passing(), s, CALLER, 0, SETTER, R14)
  {
    hide LiveAfter, ReadAfter, NONVOLATILE, CalleeClobbers;
    OneNonvolatile({R14});
    PassedCalleeClobbers();
  }

  lemma PassingFounded(targets: seq<Name>)
    ensures RetsFounded(Passing(), targets, true, PassedSolution().ret, {})
  {
    hide ClosedUnderAsking;
    forall bound, indirect | ClosedUnderAsking(Passing(), targets, true, bound, indirect)
      ensures Grows(PassedSolution().ret, bound)
    {
      PassingBound(targets, bound, indirect);
    }
  }

  lemma PassingBound(targets: seq<Name>, bound: RegSets, indirect: set<Reg>)
    requires ClosedUnderAsking(Passing(), targets, true, bound, indirect)
    ensures R14 in Lookup(bound, SETTER)
  {
    hide Round, AsksDirectly;
    PassingFirst();
    assert Grows(PassingSets({}).ret, bound);
  }

  lemma PassingOrder()
    ensures CalleesFirst(Passing(), [SETTER, READER, SAVER, CALLER])
  {
    hide CalleesOf;
    PassedCallees();
    var order := [SETTER, READER, SAVER, CALLER];
    assert order[..2] == [SETTER, READER] && order[..3] == [SETTER, READER, SAVER];
  }

  lemma PassingBounded()
    ensures RetsBounded(Passing(), PassedSolution(), PassedSolution().ret)
  {
    hide CalleeClobbers, NONVOLATILE;
    OneNonvolatile({R14});
    PassedCalleeClobbers();
  }

  lemma PassingReturns(targets: seq<Name>, s: Solution)
    requires SolvesTo(Passing(), targets, true, s)
    ensures s.ret == PassedSolution().ret
  {
    hide *;
    SolvesHas(Passing(), targets, s);
    PassingClosed(targets);
    PassingFound(targets, s);
    PassingAreSets({});
    if s.ret == PassingSets({}).ret {
      PassingOrder();
      OnlySolution(Passing(), targets, s, PassingSets({}), [SETTER, READER, SAVER, CALLER]);
      PassingFirst();
      PassingSupplied(s);
      PassingNone();
    }
  }

  lemma PassingNone()
    ensures R14 !in Lookup(PassingSets({}).ret, SETTER)
  {
  }

  lemma PassingFound(targets: seq<Name>, s: Solution)
    requires RetsFounded(Passing(), targets, true, s.ret, s.indirectRet) && s.ret.Keys == Passing().functions.Keys
    requires ClosedUnderAsking(Passing(), targets, true, PassedSolution().ret, {})
    ensures s.ret == PassedSolution().ret || s.ret == PassingSets({}).ret
  {
    hide ClosedUnderAsking;
    assert Grows(s.ret, PassedSolution().ret);
    PassingWithin(s.ret);
    PassingRets(s.ret);
  }

  lemma PassingWithin(ret: RegSets)
    requires Grows(ret, PassedSolution().ret)
    ensures Lookup(ret, CALLER) == {} && Lookup(ret, SAVER) == {} && Lookup(ret, READER) == {}
      && Lookup(ret, SETTER) <= {R14}
  {
    assert Lookup(ret, CALLER) <= {} && Lookup(ret, SAVER) <= {} && Lookup(ret, READER) <= {}
      && Lookup(ret, SETTER) <= {R14};
  }

  lemma PassingRets(ret: RegSets)
    requires ret.Keys == Passing().functions.Keys
    requires Lookup(ret, CALLER) == {} && Lookup(ret, SAVER) == {} && Lookup(ret, READER) == {}
      && Lookup(ret, SETTER) <= {R14}
    ensures ret == PassedSolution().ret || ret == PassingSets({}).ret
  {
    if R14 in Lookup(ret, SETTER) {
      assert ret[SETTER] == {R14};
    } else {
      assert ret[SETTER] == {};
    }
  }

  lemma PassingSupplied(s: Solution)
    requires Solved(Passing(), s) && AsksDirectly(Passing(), s, CALLER, 0, SETTER, R14)
    ensures R14 in Lookup(s.ret, SETTER)
  {
    hide IsLeastClobbers, IsNoreturn, Settled, RetsBounded, Needed;
    assert CallSupplied(Passing(), s, CALLER, 0);
  }

  /** Whatever its indirect targets are, solve can return this and nothing else. */
  lemma PassingOnly(targets: seq<Name>, s: Solution)
    ensures SolvesTo(Passing(), targets, true, s) <==> s == PassedSolution()
  {
    hide *;
    PassedSolutionIs();
    PassingAreSets({R14});
    if SolvesTo(Passing(), targets, true, s) {
      PassingReturns(targets, s);
      PassingOrder();
      OnlySolution(Passing(), targets, s, PassedSolution(), [SETTER, READER, SAVER, CALLER]);
    }
    PassingClosed(targets);
    PassingFounded(targets);
    PassingBounded();
    LineSetsSolve(Passing(), targets, PassedSolution());
  }

  lemma PassedAfter()
    ensures LiveAfter(Passing(), PassedSolution(), CALLER, 0) == {R14}
      && LiveAfter(Passing(), PassedSolution(), CALLER, 1) == {R14}
    ensures LiveAfter(Passing(), PassedSolution(), CALLER, 2) == {}
      && LiveAfter(Passing(), PassedSolution(), SAVER, 1) == {}
  {
    hide Out;
    OutOfOne(1, PassedSolution().livebefore[CALLER]);
    OutOfOne(2, PassedSolution().livebefore[CALLER]);
    OutOfOne(3, PassedSolution().livebefore[CALLER]);
    OutOfOne(2, PassedSolution().livebefore[SAVER]);
  }

  lemma PassedCalleeClobbers()
    ensures CalleeClobbers(NORETURN_IMPORTS, PassedSolution().clobbers, SETTER) == {R14}
    ensures CalleeClobbers(NORETURN_IMPORTS, PassedSolution().clobbers, SAVER) == {}
      == CalleeClobbers(NORETURN_IMPORTS, PassedSolution().clobbers, READER)
  {
  }

  // ------------------------------------------------------------ what the two do

  /** The reader, in the source: it notes r14 and leaves it. */
  lemma PassedReader(p: Program, m: Meaning, c: File, w: World, fuel: nat)
    requires p == Passing() && m == TwoSet() && WellFormed(p) && fuel >= 3
    ensures Leaves(Invoke(p, m, map[], READER, c, w, fuel), Noted(At(c, R14)), R14, At(c, R14))
  {
    hide WellFormed, Run, Invoke, Override, Restrict, Lines, KEPT_FIELDS;
    PassedLines();
    NotKept(p, R14);
    RunDoes(p, m, READER, 0, {R14}, {}, c, w, fuel - 1);
    RestrictAt(c, {R14}, R14);
    RunLeaves(p, m, READER, 1, Override(c, map[], {}), Noted(At(c, R14)), fuel - 2);
    InvokeLeaves(p, m, READER, c, w, fuel, Noted(At(c, R14)), R14, At(c, R14));
  }

  /** The saver, in the source: it gives r14 back as it was. */
  lemma PassedSaver(p: Program, m: Meaning, c: File, w: World)
    requires p == Passing() && m == TwoSet() && WellFormed(p)
    ensures Leaves(Invoke(p, m, map[], SAVER, c, w, 7), Noted(2), R14, At(c, R14))
  {
    hide WellFormed, Run, Invoke, Override, Restrict, Lines, KEPT_FIELDS;
    PassedLines();
    NotKept(p, R14);
    var c1 := Override(c, map[R14 := 2], {R14});
    RunDoes(p, m, SAVER, 0, {}, {R14}, c, w, 6);
    PassedReader(p, m, c1, w, 4);
    RunCalls(p, m, SAVER, 1, READER, c1, w, 5);
    var back := Invoke(p, m, map[], READER, c1, w, 4);
    RunLeaves(p, m, SAVER, 2, back.file, back.world, 4);
    InvokeLeaves(p, m, SAVER, c, w, 7, Noted(2), R14, 2);
  }

  lemma PassedSource(p: Program, m: Meaning)
    requires p == Passing() && m == TwoSet() && WellFormed(p)
    ensures Leaves(Invoke(p, m, map[], CALLER, map[], START, 10), Noted(1), R14, 1)
  {
    hide WellFormed, Run, Invoke, Override, Restrict, Lines, KEPT_FIELDS;
    PassedLines();
    NotKept(p, R14);
    var c: File := map[];
    // g
    RunDoes(p, m, SETTER, 0, {}, {R14}, c, START, 7);
    RunLeaves(p, m, SETTER, 1, Override(c, map[R14 := 1], {R14}), START, 6);
    InvokeLeaves(p, m, SETTER, c, START, 8, START, R14, 1);
    RunCalls(p, m, CALLER, 0, SETTER, c, START, 9);
    // h
    var c1 := Invoke(p, m, map[], SETTER, c, START, 8).file;
    PassedSaver(p, m, c1, START);
    RunCalls(p, m, CALLER, 1, SAVER, c1, START, 8);
    // k
    var c2 := Invoke(p, m, map[], SAVER, c1, START, 7).file;
    PassedReader(p, m, c2, Noted(2), 6);
    RunCalls(p, m, CALLER, 2, READER, c2, Noted(2), 7);
    var c3 := Invoke(p, m, map[], READER, c2, Noted(2), 6).file;
    RunLeaves(p, m, CALLER, 3, c3, Noted(1), 6);
    InvokeLeaves(p, m, CALLER, c, START, 10, Noted(1), R14, 1);
  }

  lemma PassedLocals()
    ensures LocalUnits(Passing(), PassedSolution(), CALLER) == {}
    ensures LocalUnits(Passing(), PassedSolution(), SETTER) == {R14}
      && LocalUnits(Passing(), PassedSolution(), SAVER) == {R14}
    ensures LocalUnits(Passing(), PassedSolution(), READER) == {R14}
  {
    hide NONVOLATILE;
    OneNonvolatile({R14});
  }

  function PassedBefore(f: Name, i: nat): set<Reg> {
    if (f == SETTER || f == SAVER) && i == 1 then {R14} else {}
  }

  lemma PassedStores(f: Name, i: nat)
    requires f in Passing().functions && i < |Passing().functions[f].nodes|
    ensures Stores(Passing(), PassedSolution(), f, Passing().functions[f].nodes[i])
      * LocalUnits(Passing(), PassedSolution(), f) == PassedBefore(f, i)
  {
    hide LocalUnits;
    PassedLocals();
  }

  lemma PassedLoads(f: Name, i: nat)
    requires f in Passing().functions && i < |Passing().functions[f].nodes|
    ensures f in PassedSolution().livebefore
    ensures Loads(Passing(), PassedSolution(), f, i) * LocalUnits(Passing(), PassedSolution(), f) == {}
  {
    hide LocalUnits, LiveAfter;
    PassedLocals();
    PassedAfter();
  }

  lemma PassedEmits(f: Name, i: nat)
    requires f in Passing().functions && i < |Passing().functions[f].nodes|
    ensures f in PassedSolution().livebefore
    ensures Emit(Passing(), PassedSolution(), f, i)
      == Block(Passing().functions[f].nodes[i], false, PassedBefore(f, i), {})
  {
    hide Widen, LocalUnits, LiveAfter, Stores, Loads;
    PassedStores(f, i);
    PassedLoads(f, i);
    NoneWide();
    OneWide(R14);
  }

  ghost predicate PassedTargetIs(t: Target, loaded: set<Reg>, blocks: seq<Block>) {
    t.locals == {R14} && t.loaded == loaded && t.blocks == blocks
  }

  ghost predicate PassedCode(code: Code) {
    && CALLER in code && SETTER in code && SAVER in code && READER in code
    && code[CALLER].blocks == [Block(CallTo(SETTER, 1), false, {}, {}), Block(CallTo(SAVER, 2), false, {}, {}),
      Block(CallTo(READER, 3), false, {}, {}), Block(LEAVE, false, {}, {})]
    && PassedTargetIs(code[SETTER], {}, [Block(Does({}, {R14}, 1), false, {}, {}), Block(LEAVE, false, {R14}, {})])
    && PassedTargetIs(code[SAVER], {},
      [Block(Does({}, {R14}, 1), false, {}, {}), Block(CallTo(READER, 2), false, {R14}, {}),
      Block(LEAVE, false, {}, {})])
    && PassedTargetIs(code[READER], {R14}, [Block(Does({R14}, {}, 1), false, {}, {}), Block(LEAVE, false, {}, {})])
  }

  lemma PassedBlock(code: Code, f: Name)
    requires IsTransformedProgram(Passing(), PassedSolution(), code) && f in Passing().functions
    ensures f in code && code[f].locals == Widen(LocalUnits(Passing(), PassedSolution(), f))
    ensures code[f].loaded == Widen(Lookup(PassedSolution().livein, f)) * code[f].locals
    ensures |code[f].blocks| == |Passing().functions[f].nodes|
    ensures forall i | 0 <= i < |code[f].blocks| ::
      code[f].blocks[i] == Block(Passing().functions[f].nodes[i], false, PassedBefore(f, i), {})
  {
    hide Widen, LocalUnits, Emit, PassedBefore;
    assert IsTransformed(Passing(), PassedSolution(), f, code[f]);
    forall i | 0 <= i < |Passing().functions[f].nodes|
      ensures code[f].blocks[i] == Block(Passing().functions[f].nodes[i], false, PassedBefore(f, i), {})
    {
      PassedEmits(f, i);
    }
  }

  lemma PassedBlocks(code: Code)
    requires IsTransformedProgram(Passing(), PassedSolution(), code)
    ensures PassedCode(code)
  {
    hide Widen, LocalUnits, Emit, IsTransformedProgram;
    PassedLocals();
    NoneWide();
    OneWide(R14);
    PassedBlock(code, CALLER);
    PassedBlock(code, SETTER);
    PassedBlock(code, SAVER);
    PassedBlock(code, READER);
  }

  /** The reader, converted: it notes what the context holds. */
  lemma PassedTargetReader(p: Program, code: Code, m: Meaning, c: File, w: World, fuel: nat)
    requires p == Passing() && m == TwoSet() && PassedCode(code) && WellFormedCode(code) && fuel >= 3
    ensures Leaves(TargetInvoke(p, code, m, map[], READER, c, w, fuel), Noted(At(c, R14)), R14, At(c, R14))
  {
    hide WellFormed, WellFormedCode, TargetRun, TargetInvoke, Override, Restrict, View;
    var l := Restrict(c, {R14});
    RestrictAt(c, {R14}, R14);
    ViewAt(l, c, {R14}, R14);
    RestrictAt(View(l, c, {R14}), {R14}, R14);
    var l1, c1 := TargetDoes(p, code, m, READER, 0, {R14}, {}, l, c, w, fuel - 1);
    TargetLeaves(p, code, m, READER, 1, {}, l1, c1, Noted(At(c, R14)), fuel - 2);
    TargetInvokeLeaves(p, code, m, READER, c, w, fuel, Noted(At(c, R14)), R14, At(c, R14));
  }

  /** The saver, converted: what it handed to the reader stays in the context. */
  lemma PassedTargetSaver(p: Program, code: Code, m: Meaning, c: File, w: World)
    requires p == Passing() && m == TwoSet() && PassedCode(code) && WellFormedCode(code)
    ensures Leaves(TargetInvoke(p, code, m, map[], SAVER, c, w, 7), Noted(2), R14, 2)
  {
    hide WellFormed, WellFormedCode, TargetRun, TargetInvoke, Override, Restrict, View;
    var l := Restrict(c, {});
    var l1, c1 := TargetDoes(p, code, m, SAVER, 0, {}, {R14}, l, c, w, 6);
    var c2 := Override(c1, l1, {R14});
    PassedTargetReader(p, code, m, c2, w, 4);
    TargetCalls(p, code, m, SAVER, 1, READER, {R14}, {}, l1, c1, w, 5);
    var back := TargetInvoke(p, code, m, map[], READER, c2, w, 4);
    TargetLeaves(p, code, m, SAVER, 2, {}, Override(l1, back.file, {}), back.file, Noted(2), 4);
    TargetInvokeLeaves(p, code, m, SAVER, c, w, 7, Noted(2), R14, 2);
  }

  lemma PassedTarget(p: Program, code: Code, m: Meaning)
    requires p == Passing() && m == TwoSet() && PassedCode(code) && WellFormedCode(code)
    ensures Leaves(TargetInvoke(p, code, m, map[], CALLER, map[], START, 10), Noted(2), R14, 2)
  {
    hide WellFormed, WellFormedCode, TargetRun, TargetInvoke, Override, Restrict, View;
    var c: File := map[];
    var l := Restrict(c, code[CALLER].loaded);
    // g
    var c0 := Override(c, l, {});
    var lg, cg := TargetDoes(p, code, m, SETTER, 0, {}, {R14}, Restrict(c0, {}), c0, START, 7);
    TargetLeaves(p, code, m, SETTER, 1, {R14}, lg, cg, START, 6);
    TargetInvokeLeaves(p, code, m, SETTER, c0, START, 8, START, R14, 1);
    TargetCalls(p, code, m, CALLER, 0, SETTER, {}, {}, l, c, START, 9);
    // h
    var c1 := TargetInvoke(p, code, m, map[], SETTER, c0, START, 8).file;
    var l1 := Override(l, c1, {});
    var c2 := Override(c1, l1, {});
    PassedTargetSaver(p, code, m, c2, START);
    TargetCalls(p, code, m, CALLER, 1, SAVER, {}, {}, l1, c1, START, 8);
    // k
    var c3 := TargetInvoke(p, code, m, map[], SAVER, c2, START, 7).file;
    var l3 := Override(l1, c3, {});
    var c4 := Override(c3, l3, {});
    PassedTargetReader(p, code, m, c4, Noted(2), 6);
    TargetCalls(p, code, m, CALLER, 2, READER, {}, {}, l3, c3, Noted(2), 7);
    var c5 := TargetInvoke(p, code, m, map[], READER, c4, Noted(2), 6).file;
    TargetLeaves(p, code, m, CALLER, 3, {}, Override(l3, c5, {}), c5, Noted(2), 6);
    TargetInvokeLeaves(p, code, m, CALLER, c, START, 10, Noted(2), R14, 2);
  }

  lemma WritesOne(nodes: seq<Node>, r: Reg)
    requires nodes != [] && nodes[0].kind == PLAIN && r in nodes[0].writes && Saveable(r)
    requires forall i, q | 0 <= i < |nodes| && q in nodes[i].writes :: q == r
    ensures WritesFound(nodes, {r})
  {
    EntryReachable(nodes, {});
    assert WritesAt(nodes, 0, r);
    hide Reachable;
  }

  lemma PassedConventional()
    ensures Conventional(Passing(), TwoSet(), PassedSolution())
  {
    hide Line, WellFormed, Reachable, Lines, WritesFound, Conventional;
    PassedLines();
    WritesNone(Passing().functions[CALLER].nodes);
    WritesOne(Passing().functions[SETTER].nodes, R14);
    WritesOne(Passing().functions[SAVER].nodes, R14);
    WritesNone(Passing().functions[READER].nodes);
    LinesConventional(Passing(), TwoSet(), PassedSolution());
  }

  lemma PassedFails()
    ensures !AllComeBack(Passing(), PassedSolution())
  {
    hide LocalUnits, LiveAfter, AllQuiet;
    PassedAfter();
    PassedLocals();
    NoneWide();
    assert !ComesBackAt(Passing(), PassedSolution(), CALLER, 1, R14);
    assert R14 in LiveAfter(Passing(), PassedSolution(), CALLER, 1) && R14 in Passing().localised by {
      OneNonvolatile({R14});
    }
    assert !ComesBack(Passing(), PassedSolution(), CALLER, 1);
  }

  /** Whatever the conversion of this program gives, the register is lost past the saver. */
  lemma NonvolatileLost(targets: seq<Name>, s: Solution, code: Code)
    requires Converted(Passing(), targets, true, s, code)
    ensures Conventional(Passing(), TwoSet(), s) && !AllComeBack(Passing(), s)
    ensures ToldApart(Passing(), code, TwoSet(), CALLER, 10)
  {
    hide *;
    ConvertedHas(Passing(), targets, s, code);
    PassingOnly(targets, s);
    PassedLines();
    PassedConventional();
    PassedFails();
    PassedBlocks(code);
    PassedSource(Passing(), TwoSet());
    PassedTarget(Passing(), code, TwoSet());
    Told(Passing(), code, TwoSet(), CALLER, 10, R14, 1, 1, 2, 2);
  }
}
