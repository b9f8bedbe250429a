/** A program on which the conversion loses a volatile register that one callee sets for a
    later one, and a program on which a callee between them passes it by and nothing is lost. */
module VolatileHandedOn {
  import opened Registers
  import opened Programs
  import opened Liveness
  import opened CallGraph
  import opened Analysis
  import opened Machine
  import opened CallFacts
  import opened Noninterference
  import opened Transform
  import opened TargetMachine
  import opened Simulation
  import opened StraightLines

  const CALLER: Name := Named("caller")
  const SETTER: Name := Named("setter")
  const READER: Name := Named("reader")
  const R12: Reg := R(12)

  lemma OneNonargument()
    ensures R12 in NONARGUMENT && NONARGUMENT * {R12} == {R12} && Volatile(R12)
  {
  }

  // ------------------------------------------------------------ the program and its solution

  /** The caller calls the setter, then the reader; the setter sets r12 and the reader reads
      it. The caller does not name it, so nothing asks the setter to return it. */
  function HandedOn(): Program {
    Program(map[
      CALLER := Function([CallTo(SETTER, 1), CallTo(READER, 2), LEAVE], {}, {}, {}),
      SETTER := Function([Does({}, {R12}, 1), LEAVE], {R12}, {}, {}),
      READER := Function([Does({R12}, {}, 1), LEAVE], {R12}, {}, {})], NONARGUMENT, map[], NONARGUMENT)
  }

  function HandedSolution(): Solution {
    Solution(NORETURN_IMPORTS, map[CALLER := {}, SETTER := {}, READER := {}],
      map[CALLER := {R12}, SETTER := {}, READER := {R12}], map[CALLER := {}, SETTER := {}, READER := {}],
      map[CALLER := [{R12}, {R12}, {}], SETTER := [{}, {}], READER := [{R12}, {}]], {R12}, {})
  }

  lemma HandedLines()
    ensures Lines(HandedOn()) && WellFormed(HandedOn())
    ensures CALLER != SETTER && SETTER != READER && CALLER != READER
  {
    hide Line, NONARGUMENT, Selected;
    ShortLine(Does({}, {R12}, 1));
    ShortLine(Does({R12}, {}, 1));
    LongLine(CallTo(SETTER, 1), CallTo(READER, 2));
    ClassesSelected();
    LinesWellFormed(HandedOn());
  }

  lemma HandedFlows()
    ensures forall f | f in HandedOn().functions :: Flows(HandedOn(), HandedSolution(), f)
  {
    hide Line, NONARGUMENT;
    OneNonargument();
  }

  lemma HandedSets()
    ensures LineSets(HandedOn(), HandedSolution())
  {
    hide Line, Lines, Flows, WellFormed, NONARGUMENT, IsLeastClobbers;
    HandedLines();
    HandedFlows();
    OneNonargument();
    NoClobbers(HandedOn(), HandedSolution().clobbers);
  }

  /** The caller reads nothing itself, so no round asks for anything. */
  lemma HandedAsksNone(s: Solution, f: Name, i: nat, r: Reg)
    requires Round(HandedOn(), s) && Grows(s.ret, HandedSolution().ret)
    ensures Asks(HandedOn(), s, f, i, r) ==> HandedOn().functions[f].nodes[i].kind != CALL
  {
    hide Line, Lines, Round, ReadAfter, Backwards, WellFormed, LineSets;
    var p := HandedOn();
    HandedLines();
    HandedSets();
    RoundOfLines(p, s, HandedSolution());
    if Asks(p, s, f, i, r) && p.functions[f].nodes[i].kind == CALL {
      NeedsOwn(p, s, f, i, r);
      HandedOwn(s);
      OwnReadsOnLine(p, s, CALLER, Gens(p, CALLER, s.livein, s.ret, {}, true), [{}, {}, {}], i, r);
    }
  }

  lemma HandedOwn(s: Solution)
    requires Grows(s.ret, HandedSolution().ret)
    ensures Backwards(HandedOn().functions[CALLER].nodes, Gens(HandedOn(), CALLER, s.livein, s.ret, {}, true),
                      Kills(HandedOn(), CALLER, s.ret, s.indirectRet), [{}, {}, {}])
  {
    assert Lookup(s.ret, CALLER) <= Lookup(HandedSolution().ret, CALLER);
  }

  lemma HandedClosed(targets: seq<Name>)
    ensures ClosedUnderAsking(HandedOn(), targets, true, HandedSolution().ret, {})
  {
    hide Round, Asks;
    forall s, f, i, g, r | Round(HandedOn(), s) && Grows(s.ret, HandedSolution().ret)
      && AsksDirectly(HandedOn(), s, f, i, g, r)
      ensures false
    {
      HandedAsksNone(s, f, i, r);
    }
  }

  lemma HandedReturnsNone(targets: seq<Name>, ret: RegSets)
    requires RetsFounded(HandedOn(), targets, true, ret, {}) && ret.Keys == HandedOn().functions.Keys
    ensures ret == HandedSolution().ret
  {
    hide ClosedUnderAsking;
    HandedClosed(targets);
    forall f | f in ret ensures ret[f] == {} {
      assert Lookup(ret, f) <= Lookup(HandedSolution().ret, f);
    }
  }

  lemma HandedOrder()
    ensures CalleesFirst(HandedOn(), [SETTER, READER, CALLER])
  {
    hide CalleesOf;
    CalleesShort(Does({}, {R12}, 1));
    CalleesShort(Does({R12}, {}, 1));
    CalleesLong(CallTo(SETTER, 1), CallTo(READER, 2));
    assert [SETTER, READER, CALLER][..2] == [SETTER, READER];
  }

  /** Whatever its indirect targets are, solve can return this and nothing else. */
  lemma HandedOnly(targets: seq<Name>, s: Solution)
    ensures SolvesTo(HandedOn(), targets, true, s) <==> s == HandedSolution()
  {
    hide *;
    HandedSets();
    if SolvesTo(HandedOn(), targets, true, s) {
      SolvesHas(HandedOn(), targets, s);
      HandedReturnsNone(targets, s.ret);
      HandedOrder();
      OnlySolution(HandedOn(), targets, s, HandedSolution(), [SETTER, READER, CALLER]);
    }
    HandedClosed(targets);
    HandedBounded(targets);
    LineSetsSolve(HandedOn(), targets, HandedSolution());
  }

  lemma HandedBounded(targets: seq<Name>)
    ensures RetsBounded(HandedOn(), HandedSolution(), HandedSolution().ret)
    ensures RetsFounded(HandedOn(), targets, true, HandedSolution().ret, {})
  {
    hide ClosedUnderAsking;
  }

  // ------------------------------------------------------------ what the two do

  lemma HandedSource(p: Program, m: Meaning)
    requires p == HandedOn() && m == SetAndNote(SETTER, R12) && WellFormed(p)
    ensures Leaves(Invoke(p, m, map[], CALLER, map[], START, 9), Noted(1), R12, 1)
  {
    hide WellFormed, Run, Invoke, Override, Restrict, Lines, KEPT_FIELDS;
    HandedLines();
    NotKept(p, R12);
    // g
    var c0: File := map[];
    RunDoes(p, m, SETTER, 0, {}, {R12}, c0, START, 6);
    var c1 := Override(c0, map[R12 := 1], {R12});
    RunLeaves(p, m, SETTER, 1, c1, START, 5);
    InvokeLeaves(p, m, SETTER, c0, START, 7, START, R12, 1);
    // h, after g
    RunCalls(p, m, CALLER, 0, SETTER, c0, START, 8);
    var back := Invoke(p, m, map[], SETTER, c0, START, 7);
    RunDoes(p, m, READER, 0, {R12}, {}, back.file, START, 5);
    RestrictAt(back.file, {R12}, R12);
    RunLeaves(p, m, READER, 1, Override(back.file, map[], {}), Noted(1), 4);
    InvokeLeaves(p, m, READER, back.file, START, 6, Noted(1), R12, 1);
    // f
    RunCalls(p, m, CALLER, 1, READER, back.file, START, 7);
    var done := Invoke(p, m, map[], READER, back.file, START, 6);
    RunLeaves(p, m, CALLER, 2, done.file, Noted(1), 6);
    InvokeLeaves(p, m, CALLER, c0, START, 9, Noted(1), R12, 1);
  }

  lemma HandedLocals()
    ensures LocalUnits(HandedOn(), HandedSolution(), CALLER) == {}
    ensures LocalUnits(HandedOn(), HandedSolution(), SETTER) == {R12}
      && LocalUnits(HandedOn(), HandedSolution(), READER) == {R12}
  {
    hide NONARGUMENT;
    OneNonargument();
  }

  lemma HandedPasses(f: Name, i: nat)
    requires f in HandedOn().functions && i < |HandedOn().functions[f].nodes|
    ensures f in HandedSolution().livebefore
    ensures Stores(HandedOn(), HandedSolution(), f, HandedOn().functions[f].nodes[i])
      * LocalUnits(HandedOn(), HandedSolution(), f) == {}
    ensures Loads(HandedOn(), HandedSolution(), f, i) * LocalUnits(HandedOn(), HandedSolution(), f) == {}
  {
    hide LocalUnits, LiveAfter;
    HandedLocals();
  }

  lemma HandedEmits(f: Name, i: nat)
    requires f in HandedOn().functions && i < |HandedOn().functions[f].nodes|
    ensures f in HandedSolution().livebefore
      && Emit(HandedOn(), HandedSolution(), f, i) == Block(HandedOn().functions[f].nodes[i], false, {}, {})
  {
    hide Widen, LocalUnits, LiveAfter, Stores, Loads;
    HandedPasses(f, i);
    NoneWide();
  }

  lemma HandedBare(code: Code, f: Name)
    requires IsTransformedProgram(HandedOn(), HandedSolution(), code) && f in HandedOn().functions
    ensures f in code && Bare(code[f], HandedOn().functions[f].nodes)
  {
    hide Widen, LocalUnits, Emit;
    assert IsTransformed(HandedOn(), HandedSolution(), f, code[f]);
    forall i | 0 <= i < |HandedOn().functions[f].nodes|
      ensures code[f].blocks[i] == Block(HandedOn().functions[f].nodes[i], false, {}, {})
    {
      HandedEmits(f, i);
    }
  }

  ghost predicate HandedCode(code: Code) {
    && CALLER in code && SETTER in code && READER in code
    && code[CALLER].locals == {} && code[SETTER].locals == {R12} && code[SETTER].loaded == {}
      && code[READER].locals == {R12} && code[READER].loaded == {R12}
    && Bare(code[CALLER], [CallTo(SETTER, 1), CallTo(READER, 2), LEAVE])
    && Bare(code[SETTER], [Does({}, {R12}, 1), LEAVE]) && Bare(code[READER], [Does({R12}, {}, 1), LEAVE])
  }

  lemma HandedBlocks(code: Code)
    requires IsTransformedProgram(HandedOn(), HandedSolution(), code)
    ensures HandedCode(code)
  {
    hide Widen, LocalUnits, Emit, Bare;
    HandedLocals();
    OneWide(R12);
    NoneWide();
    HandedBare(code, CALLER);
    HandedBare(code, SETTER);
    HandedBare(code, READER);
  }

  lemma HandedTarget(p: Program, code: Code, m: Meaning)
    requires p == HandedOn() && m == SetAndNote(SETTER, R12) && WellFormed(p)
    requires IsTransformedProgram(p, HandedSolution(), code) && WellFormedCode(code)
    ensures Leaves(TargetInvoke(p, code, m, map[], CALLER, map[], START, 9), Noted(0), R12, 0)
  {
    hide WellFormed, WellFormedCode, TargetRun, TargetInvoke, Override, Restrict, View, IsTransformedProgram, Widen,
      HandedSolution;
    HandedBlocks(code);
    var c: File := map[];
    var l := Restrict(c, code[CALLER].loaded);
    // g: its r12 stays in its local
    var c1 := Override(c, l, {});
    var lg, cg := TargetDoes(p, code, m, SETTER, 0, {}, {R12}, Restrict(c1, code[SETTER].loaded), c1, START, 6);
    TargetLeaves(p, code, m, SETTER, 1, {}, lg, cg, START, 5);
    TargetInvokeLeaves(p, code, m, SETTER, c1, START, 7, START, R12, 0);
    TargetCalls(p, code, m, CALLER, 0, SETTER, {}, {}, l, c, START, 8);
    // h loads it from the context, where it never arrived
    var back := TargetInvoke(p, code, m, map[], SETTER, c1, START, 7).file;
    var l2, c2 := Override(l, back, {}), Override(back, Override(l, back, {}), {});
    ViewAt(Restrict(c2, code[READER].loaded), c2, {R12}, R12);
    RestrictAt(c2, {R12}, R12);
    RestrictAt(View(Restrict(c2, code[READER].loaded), c2, {R12}), {R12}, R12);
    var lh, ch := TargetDoes(p, code, m, READER, 0, {R12}, {}, Restrict(c2, code[READER].loaded), c2, START, 5);
    TargetLeaves(p, code, m, READER, 1, {}, lh, ch, Noted(0), 4);
    TargetInvokeLeaves(p, code, m, READER, c2, START, 6, Noted(0), R12, 0);
    TargetCalls(p, code, m, CALLER, 1, READER, {}, {}, l2, back, START, 7);
    // f
    var done := TargetInvoke(p, code, m, map[], READER, c2, START, 6).file;
    TargetLeaves(p, code, m, CALLER, 2, {}, Override(l2, done, {}), done, Noted(0), 6);
    TargetInvokeLeaves(p, code, m, CALLER, c, START, 9, Noted(0), R12, 0);
  }

  lemma HandedConventional()
    ensures Conventional(HandedOn(), SetAndNote(SETTER, R12), HandedSolution())
  {
    hide Line, WellFormed, Reachable, Lines, WritesFound, Conventional;
    HandedLines();
    forall f | f in HandedOn().functions
      ensures WritesFound(HandedOn().functions[f].nodes, HandedOn().functions[f].written) {
      WritesNone(HandedOn().functions[f].nodes);
    }
    LinesConventional(HandedOn(), SetAndNote(SETTER, R12), HandedSolution());
  }

  lemma SetterNotQuiet()
    ensures !Carried(HandedOn(), HandedSolution(), SETTER, R12)
  {
    hide LocalUnits, RunsWithin, Emit, Stores;
    HandedLocals();
    var s := HandedSolution();
    assert R12 in Locals(HandedOn(), s, SETTER);
    assert !QuietAt(HandedOn(), s, SETTER, 0, R12);
  }

  lemma HandedFails()
    ensures !AllComeBack(HandedOn(), HandedSolution())
  {
    hide LocalUnits, Out, Carried;
    OutOfOne(1, HandedSolution().livebefore[CALLER]);
    HandedLocals();
    SetterNotQuiet();
    NoneWide();
    assert R12 in LiveAfter(HandedOn(), HandedSolution(), CALLER, 0);
    assert !ComesBackAt(HandedOn(), HandedSolution(), CALLER, 0, R12);
    assert !ComesBack(HandedOn(), HandedSolution(), CALLER, 0);
  }

  /** Whatever the conversion of this program gives, it loses the register: the analysis asks
      the setter to return only what the caller reads itself. */
  lemma VolatileLost(targets: seq<Name>, s: Solution, code: Code)
    requires Converted(HandedOn(), targets, true, s, code)
    ensures Conventional(HandedOn(), SetAndNote(SETTER, R12), s) && !AllComeBack(HandedOn(), s)
    ensures ToldApart(HandedOn(), code, SetAndNote(SETTER, R12), CALLER, 9)
  {
    hide *;
    ConvertedHas(HandedOn(), targets, s, code);
    HandedOnly(targets, s);
    HandedLines();
    HandedConventional();
    HandedFails();
    HandedSource(HandedOn(), SetAndNote(SETTER, R12));
    HandedTarget(HandedOn(), code, SetAndNote(SETTER, R12));
    Told(HandedOn(), code, SetAndNote(SETTER, R12), CALLER, 9, R12, 1, 1, 0, 0);
  }

  // ------------------------------------------------------------ passed by

  const MIDDLE: Name := Named("middle")

  /** The caller calls a function that names nothing, then the reader: r12 stays in the context. */
  function PassedOn(): Program {
    Program(map[
      CALLER := Function([CallTo(MIDDLE, 1), CallTo(READER, 2), LEAVE], {}, {}, {}),
      MIDDLE := Function([LEAVE], {}, {}, {}),
      READER := Function([Does({R12}, {}, 1), LEAVE], {R12}, {}, {})], NONARGUMENT, map[], NONARGUMENT)
  }

  function PassedSolution(): Solution {
    Solution(NORETURN_IMPORTS, map[CALLER := {}, MIDDLE := {}, READER := {}],
      map[CALLER := {R12}, MIDDLE := {}, READER := {R12}], map[CALLER := {}, MIDDLE := {}, READER := {}],
      map[CALLER := [{R12}, {R12}, {}], MIDDLE := [{}], READER := [{R12}, {}]], {R12}, {})
  }

  lemma PassedLines()
    ensures Lines(PassedOn()) && CALLER != MIDDLE && MIDDLE != READER && CALLER != READER
  {
    hide Line, NONARGUMENT;
    EmptyLine();
    ShortLine(Does({R12}, {}, 1));
    LongLine(CallTo(MIDDLE, 1), CallTo(READER, 2));
  }

  lemma EmptyLine()
    ensures Line([LEAVE])
  {
  }

  lemma PassedFlows()
    ensures forall f | f in PassedOn().functions :: Flows(PassedOn(), PassedSolution(), f)
  {
    hide Line, NONARGUMENT;
    OneNonargument();
  }

  lemma PassedSets()
    ensures LineSets(PassedOn(), PassedSolution())
  {
    hide Line, Lines, Flows, NONARGUMENT, IsLeastClobbers;
    PassedLines();
    PassedFlows();
    OneNonargument();
    NoClobbers(PassedOn(), PassedSolution().clobbers);
  }

  lemma PassedAsksNone(s: Solution, f: Name, i: nat, r: Reg)
    requires Round(PassedOn(), s) && Grows(s.ret, PassedSolution().ret)
    ensures Asks(PassedOn(), s, f, i, r) ==> PassedOn().functions[f].nodes[i].kind != CALL
  {
    hide Line, Lines, Round, ReadAfter, Backwards, LineSets;
    var p := PassedOn();
    PassedLines();
    PassedSets();
    RoundOfLines(p, s, PassedSolution());
    if Asks(p, s, f, i, r) && p.functions[f].nodes[i].kind == CALL {
      NeedsOwn(p, s, f, i, r);
      PassedOwn(s);
      OwnReadsOnLine(p, s, CALLER, Gens(p, CALLER, s.livein, s.ret, {}, true), [{}, {}, {}], i, r);
    }
  }

  lemma PassedOwn(s: Solution)
    requires Grows(s.ret, PassedSolution().ret)
    ensures Backwards(PassedOn().functions[CALLER].nodes, Gens(PassedOn(), CALLER, s.livein, s.ret, {}, true),
                      Kills(PassedOn(), CALLER, s.ret, s.indirectRet), [{}, {}, {}])
  {
    assert Lookup(s.ret, CALLER) <= Lookup(PassedSolution().ret, CALLER);
  }

  lemma PassedClosed(targets: seq<Name>)
    ensures ClosedUnderAsking(PassedOn(), targets, true, PassedSolution().ret, {})
    ensures RetsFounded(PassedOn(), targets, true, PassedSolution().ret, {})
  {
    hide Round, Asks;
    forall s, f, i, g, r | Round(PassedOn(), s) && Grows(s.ret, PassedSolution().ret)
      && AsksDirectly(PassedOn(), s, f, i, g, r)
      ensures false
    {
      PassedAsksNone(s, f, i, r);
    }
  }

  lemma PassedBounded()
    ensures RetsBounded(PassedOn(), PassedSolution(), PassedSolution().ret)
  {
  }

  lemma PassedLocals()
    ensures LocalUnits(PassedOn(), PassedSolution(), CALLER) == {} == LocalUnits(PassedOn(), PassedSolution(), MIDDLE)
    ensures Locals(PassedOn(), PassedSolution(), CALLER) == {} == Locals(PassedOn(), PassedSolution(), MIDDLE)
  {
    hide NONARGUMENT, Widen;
    NoneWide();
  }

  lemma MiddleCarries()
    ensures Carried(PassedOn(), PassedSolution(), MIDDLE, R12)
  {
    hide LocalUnits, Locals, NONARGUMENT, QuietAt;
    PassedLocals();
    OneNonargument();
    assert MIDDLE in {MIDDLE} && AllQuiet(PassedOn(), PassedSolution(), {MIDDLE}, R12);
  }

  lemma PassedAfter()
    ensures LiveAfter(PassedOn(), PassedSolution(), CALLER, 0) == {R12}
      && LiveAfter(PassedOn(), PassedSolution(), CALLER, 1) == {}
  {
    hide Out, NONARGUMENT;
    OutOfOne(1, PassedSolution().livebefore[CALLER]);
    OutOfOne(2, PassedSolution().livebefore[CALLER]);
  }

  lemma PassedComesBack(f: Name, i: nat)
    requires f in PassedOn().functions && i < |PassedOn().functions[f].nodes|
    ensures f in PassedSolution().livebefore && ComesBack(PassedOn(), PassedSolution(), f, i)
  {
    hide LocalUnits, Locals, Emit, LiveAfter, Carried, NONARGUMENT, Kill;
    PassedAfter();
    PassedLocals();
    MiddleCarries();
  }

  /** Nothing asks the middle function to return the register, and it comes back all the same. */
  lemma VolatilePassed(targets: seq<Name>)
    ensures SolvesTo(PassedOn(), targets, true, PassedSolution()) && AllComeBack(PassedOn(), PassedSolution())
    ensures Lookup(PassedSolution().ret, MIDDLE) == {} && R12 in LiveAt(PassedSolution(), CALLER, 1)
  {
    hide SolvesTo, LineSets, RetsBounded, RetsFounded, ClosedUnderAsking, ComesBack;
    PassedSets();
    PassedClosed(targets);
    PassedBounded();
    LineSetsSolve(PassedOn(), targets, PassedSolution());
    forall f, i | f in PassedOn().functions && 0 <= i < |PassedOn().functions[f].nodes|
      ensures f in PassedSolution().livebefore && ComesBack(PassedOn(), PassedSolution(), f, i)
    {
      PassedComesBack(f, i);
    }
  }
}
