/** A program on which the conversion loses one bit of a condition field: a function names
    another bit of the field, and what it is given back of the field it does not load. */
module FieldInParts {
  import opened Registers
  import opened Programs
  import opened Liveness
  import opened CallGraph
  import opened Analysis
  import opened Machine
  import opened CallFacts
  import opened Noninterference
  import opened Transform
  import opened TargetMachine
  import opened Simulation
  import opened StraightLines

  const TOP: Name := Named("top")
  const CALLER: Name := Named("caller")
  const SETTER: Name := Named("setter")
  const B0: Reg := Cr(0, 0)
  const B1: Reg := Cr(0, 1)
  const FIELD: set<Reg> := {Cr(0, 0), Cr(0, 1), Cr(0, 2), Cr(0, 3)}

  // ------------------------------------------------------------ the field

  lemma InField(r: Reg)
    ensures r in FIELD <==> r.Cr? && r.field == 0 && r.bit < 4
  {
  }

  lemma WidensToField(s: set<Reg>, q: Reg)
    requires q in s && s <= FIELD
    ensures Widen(s) == FIELD
  {
    hide FIELD;
    InField(q);
    forall r ensures r in Widen(s) <==> r in FIELD {
      InField(r);
      if r in FIELD {
        assert r == Cr(q.field, r.bit);
      }
      forall t | t in s {
        InField(t);
      }
    }
  }

  lemma BitsInField()
    ensures B0 in FIELD && B1 in FIELD && B0 != B1
  {
  }

  lemma FieldWide()
    ensures Widen(FIELD) == FIELD && Widen({B0}) == FIELD && Widen({B1}) == FIELD && Widen({B0, B1}) == FIELD
    ensures B0 in FIELD && B1 in FIELD
  {
    hide *;
    BitsInField();
    WidensToField(FIELD, B0);
    WidensToField({B0}, B0);
    WidensToField({B1}, B1);
    WidensToField({B0, B1}, B0);
  }

  lemma InCondition(s: set<Reg>)
    requires s <= {B0, B1}
    ensures s * CONDITION == s == CONDITION * s
    ensures forall r | r in s :: Volatile(r) && r in CONDITION
  {
    assert forall r | r in s :: r in CONDITION;
  }

  // ------------------------------------------------------------ the program and its solution

  /** The setter sets one bit of a field, the caller another after calling the setter, and the
      top function reads both after calling the caller. */
  function Parts(): Program {
    Program(map[
      TOP := Function([CallTo(CALLER, 1), Does({B0, B1}, {}, 2), LEAVE], {B0, B1}, {}, {}),
      CALLER := Function([CallTo(SETTER, 1), Does({}, {B0}, 2), LEAVE], {B0}, {}, {}),
      SETTER := Function([Does({}, {B1}, 1), LEAVE], {B1}, {}, {})], CONDITION, map[], CONDITION)
  }

  /** The sets of its equations when the caller returns one set of bits and the setter another. */
  function PartsSets(back: set<Reg>, set1: set<Reg>): Solution {
    var entry := (set1 - {B1}) + ((back - {B0}) - set1);
    Solution(NORETURN_IMPORTS, map[TOP := {}, CALLER := {}, SETTER := {}],
      map[TOP := entry + ({B0, B1} - back), CALLER := entry, SETTER := set1 - {B1}],
      map[TOP := {}, CALLER := back, SETTER := set1],
      map[TOP := [entry + ({B0, B1} - back), {B0, B1}, {}], CALLER := [entry, back - {B0}, back],
        SETTER := [set1 - {B1}, set1]],
      {}, {})
  }

  function PartsSolution(): Solution {
    Solution(NORETURN_IMPORTS, map[TOP := {}, CALLER := {}, SETTER := {}],
      map[TOP := {}, CALLER := {}, SETTER := {}], map[TOP := {}, CALLER := {B0, B1}, SETTER := {B1}],
      map[TOP := [{}, {B0, B1}, {}], CALLER := [{}, {B1}, {B0, B1}], SETTER := [{}, {B1}]], {}, {})
  }

  lemma PartsSolutionIs()
    ensures PartsSets({B0, B1}, {B1}) == PartsSolution()
  {
    assert {B0, B1} - {B0} == {B1};
    assert {B1} - {B1} == {} && {B0, B1} - {B0, B1} == {};
  }

  lemma PartsLines()
    ensures Lines(Parts()) && WellFormed(Parts())
    ensures TOP != CALLER && CALLER != SETTER && TOP != SETTER
  {
    hide Line, Selected, CONDITION;
    ShortLine(Does({}, {B1}, 1));
    LongLine(CallTo(CALLER, 1), Does({B0, B1}, {}, 2));
    LongLine(CallTo(SETTER, 1), Does({}, {B0}, 2));
    ClassesSelected();
    LinesWellFormed(Parts());
  }

  lemma PartsFlow(back: set<Reg>, set1: set<Reg>, f: Name)
    requires back <= {B0, B1} && set1 <= {B0, B1} && f in Parts().functions
    ensures Flows(Parts(), PartsSets(back, set1), f)
  {
    hide Line, CONDITION;
    var entry := (set1 - {B1}) + ((back - {B0}) - set1);
    InCondition(entry + ({B0, B1} - back));
    InCondition(entry);
    InCondition(set1 - {B1});
  }

  lemma PartsAreSets(back: set<Reg>, set1: set<Reg>)
    requires back <= {B0, B1} && set1 <= {B0, B1}
    ensures LineSets(Parts(), PartsSets(back, set1))
  {
    hide Line, Lines, Flows, WellFormed, CONDITION, IsLeastClobbers;
    PartsLines();
    forall f | f in Parts().functions ensures Flows(Parts(), PartsSets(back, set1), f) {
      PartsFlow(back, set1, f);
    }
    NoClobbers(Parts(), PartsSets(back, set1).clobbers);
    ReadsNone();
  }

  lemma ReadsNone()
    ensures IndirectReads(Parts()) == {}
  {
  }

  /** What a round asks for: both bits of the caller, and of the setter what the caller is
      asked for but does not set itself. */
  lemma PartsAsks(s: Solution, r: Reg)
    requires Round(Parts(), s) && Lookup(s.ret, TOP) == {} && Lookup(s.ret, CALLER) <= {B0, B1}
    ensures Asks(Parts(), s, TOP, 0, r) <==> r in {B0, B1}
    ensures Asks(Parts(), s, CALLER, 0, r) <==> r in Lookup(s.ret, CALLER) - {B0}
  {
    hide Line, Lines, IsNoreturn, IsLeastClobbers, SettledExcept, ReadAfter, Backwards, WellFormed, LineSets,
      CONDITION, Needed;
    var p, back, set1 := Parts(), Lookup(s.ret, CALLER), Lookup(s.ret, SETTER);
    PartsLines();
    PartsAreSets({}, {});
    RoundOfLines(p, s, PartsSets({}, {}));
    InCondition({B0, B1});
    InCondition(back - {B0});
    NeedsOwn(p, s, TOP, 0, r);
    NeedsOwn(p, s, CALLER, 0, r);
    PartsOwn(s, back, set1);
    OwnReadsOnLine(p, s, TOP, Gens(p, TOP, s.livein, s.ret, {}, true), [{B0, B1} - back, {B0, B1}, {}], 0, r);
    OwnReadsOnLine(p, s, CALLER, Gens(p, CALLER, s.livein, s.ret, {}, true),
      [(back - {B0}) - set1, back - {B0}, back], 0, r);
  }

  lemma PartsOwn(s: Solution, back: set<Reg>, set1: set<Reg>)
    requires Lookup(s.ret, TOP) == {} && Lookup(s.ret, CALLER) == back && Lookup(s.ret, SETTER) == set1
    ensures Backwards(Parts().functions[TOP].nodes, Gens(Parts(), TOP, s.livein, s.ret, {}, true),
                      Kills(Parts(), TOP, s.ret, s.indirectRet), [{B0, B1} - back, {B0, B1}, {}])
    ensures Backwards(Parts().functions[CALLER].nodes, Gens(Parts(), CALLER, s.livein, s.ret, {}, true),
                      Kills(Parts(), CALLER, s.ret, s.indirectRet), [(back - {B0}) - set1, back - {B0}, back])
  {
  }

  lemma PartsClosed(targets: seq<Name>)
    ensures ClosedUnderAsking(Parts(), targets, true, PartsSolution().ret, {})
  {
    hide Round, Asks;
    forall s, f, i, g, r | Round(Parts(), s) && Grows(s.ret, PartsSolution().ret)
      && AsksDirectly(Parts(), s, f, i, g, r)
      ensures r in Lookup(PartsSolution().ret, g)
    {
      PartsAsksWithin(s, f, i, r);
    }
  }

  lemma PartsAsksWithin(s: Solution, f: Name, i: nat, r: Reg)
    requires Round(Parts(), s) && Grows(s.ret, PartsSolution().ret) && Asks(Parts(), s, f, i, r)
    requires Parts().functions[f].nodes[i].kind == CALL
    ensures r in Lookup(PartsSolution().ret, Parts().functions[f].nodes[i].callee)
  {
    hide Round, Needed;
    assert Lookup(s.ret, TOP) <= Lookup(PartsSolution().ret, TOP)
      && Lookup(s.ret, CALLER) <= Lookup(PartsSolution().ret, CALLER);
    PartsAsks(s, r);
  }

  /** Two rounds ask for all of it: the first for the caller's bits, the second for the setter's. */
  lemma PartsFounded(targets: seq<Name>)
    ensures RetsFounded(Parts(), targets, true, PartsSolution().ret, {})
  {
    hide ClosedUnderAsking;
    forall bound, indirect | ClosedUnderAsking(Parts(), targets, true, bound, indirect)
      ensures Grows(PartsSolution().ret, bound)
    {
      PartsGrow(targets, bound, indirect);
    }
  }

  lemma PartsGrow(targets: seq<Name>, bound: RegSets, indirect: set<Reg>)
    requires ClosedUnderAsking(Parts(), targets, true, bound, indirect)
    ensures {B0, B1} <= Lookup(bound, CALLER) && B1 in Lookup(bound, SETTER)
  {
    hide Round, Asks, ClosedUnderAsking;
    PartsRound({}, {});
    PartsAsks(PartsSets({}, {}), B0);
    PartsAsks(PartsSets({}, {}), B1);
    PartsBound(targets, bound, indirect, {}, {}, TOP, B0);
    PartsBound(targets, bound, indirect, {}, {}, TOP, B1);
    PartsRound({B0, B1}, {});
    PartsAsks(PartsSets({B0, B1}, {}), B1);
    PartsBound(targets, bound, indirect, {B0, B1}, {}, CALLER, B1);
  }

  lemma PartsRound(back: set<Reg>, set1: set<Reg>)
    requires back <= {B0, B1} && set1 <= {B0, B1}
    ensures Round(Parts(), PartsSets(back, set1)) && PartsSets(back, set1).noreturn == NORETURN_IMPORTS
  {
    hide LineSets, Round;
    PartsAreSets(back, set1);
    LineSetsRound(Parts(), PartsSets(back, set1));
  }

  lemma PartsBound(targets: seq<Name>, bound: RegSets, indirect: set<Reg>, back: set<Reg>, set1: set<Reg>,
      f: Name, r: Reg)
    requires ClosedUnderAsking(Parts(), targets, true, bound, indirect)
    requires Round(Parts(), PartsSets(back, set1)) && back <= Lookup(bound, CALLER) && set1 <= Lookup(bound, SETTER)
    requires f in {TOP, CALLER} && Asks(Parts(), PartsSets(back, set1), f, 0, r)
    ensures r in Lookup(bound, if f == TOP then CALLER else SETTER)
  {
    hide Round, Needed;
    var g := if f == TOP then CALLER else SETTER;
    assert AsksDirectly(Parts(), PartsSets(back, set1), f, 0, g, r);
    assert Grows(PartsSets(back, set1).ret, bound);
  }

  lemma PartsBounded()
    ensures RetsBounded(Parts(), PartsSolution(), PartsSolution().ret)
  {
    hide CONDITION;
    InCondition({B0, B1});
  }

  lemma PartsOrder()
    ensures CalleesFirst(Parts(), [SETTER, CALLER, TOP])
  {
    hide CalleesOf;
    CalleesShort(Does({}, {B1}, 1));
    CalleesLong(CallTo(CALLER, 1), Does({B0, B1}, {}, 2));
    CalleesLong(CallTo(SETTER, 1), Does({}, {B0}, 2));
    assert [SETTER, CALLER, TOP][..1] == [SETTER] && [SETTER, CALLER, TOP][..2] == [SETTER, CALLER];
  }

  /** What solve returns brings every bit back that some call asks for. */
  lemma PartsReturns(targets: seq<Name>, s: Solution)
    requires SolvesTo(Parts(), targets, true, s)
    ensures s.ret == PartsSolution().ret
  {
    hide *;
    SolvesHas(Parts(), targets, s);
    PartsClosed(targets);
    PartsFound(targets, s);
    forall r | r in {B0, B1} ensures r in Lookup(s.ret, CALLER) {
      PartsAsks(s, r);
      PartsSupply(s, TOP, r);
    }
    BitsApart();
    assert Lookup(s.ret, CALLER) == {B0, B1};
    PartsAsks(s, B1);
    PartsSupply(s, CALLER, B1);
    PartsRets(s.ret);
  }

  lemma BitsApart()
    ensures B0 != B1
  {
  }

  lemma PartsFound(targets: seq<Name>, s: Solution)
    requires RetsFounded(Parts(), targets, true, s.ret, s.indirectRet)
    requires ClosedUnderAsking(Parts(), targets, true, PartsSolution().ret, {})
    ensures Lookup(s.ret, TOP) == {} && Lookup(s.ret, CALLER) <= {B0, B1} && Lookup(s.ret, SETTER) <= {B1}
  {
    hide ClosedUnderAsking;
    assert Lookup(s.ret, TOP) <= Lookup(PartsSolution().ret, TOP);
    assert Lookup(s.ret, CALLER) <= Lookup(PartsSolution().ret, CALLER);
    assert Lookup(s.ret, SETTER) <= Lookup(PartsSolution().ret, SETTER);
  }

  lemma PartsSupply(s: Solution, f: Name, r: Reg)
    requires Solved(Parts(), s) && f in {TOP, CALLER} && Asks(Parts(), s, f, 0, r)
    ensures r in Lookup(s.ret, if f == TOP then CALLER else SETTER)
  {
    hide IsLeastClobbers, Settled, RetsBounded, Needed, Lines, WellFormed;
    PartsLines();
    NoreturnOfLines(Parts());
    OneNoreturn(Parts(), s.noreturn, NORETURN_IMPORTS);
    hide IsNoreturn;
    assert CallSupplied(Parts(), s, f, 0);
  }

  lemma PartsRets(ret: RegSets)
    requires ret.Keys == Parts().functions.Keys
    requires Lookup(ret, TOP) == {} && Lookup(ret, CALLER) == {B0, B1} && Lookup(ret, SETTER) == {B1}
    ensures ret == PartsSolution().ret
  {
  }

  /** Whatever its indirect targets are, solve can return this and nothing else. */
  lemma PartsOnly(targets: seq<Name>, s: Solution)
    ensures SolvesTo(Parts(), targets, true, s) <==> s == PartsSolution()
  {
    hide *;
    PartsSolutionIs();
    PartsAreSets({B0, B1}, {B1});
    if SolvesTo(Parts(), targets, true, s) {
      PartsReturns(targets, s);
      PartsOrder();
      OnlySolution(Parts(), targets, s, PartsSolution(), [SETTER, CALLER, TOP]);
    }
    PartsClosed(targets);
    PartsFounded(targets);
    PartsBounded();
    LineSetsSolve(Parts(), targets, PartsSolution());
  }

  // ------------------------------------------------------------ what the two do

  lemma FieldSource(p: Program, m: Meaning)
    requires p == Parts() && m == SetAndNote(SETTER, B1) && WellFormed(p)
    ensures Leaves(Invoke(p, m, map[], TOP, map[], START, 9), Noted(1), B1, 1)
  {
    hide WellFormed, Run, Invoke, Override, Restrict, Lines, KEPT_FIELDS;
    PartsLines();
    NotKept(p, B1);
    // g
    var c: File := map[];
    RunDoes(p, m, SETTER, 0, {}, {B1}, c, START, 4);
    RunLeaves(p, m, SETTER, 1, Override(c, map[B1 := 1], {B1}), START, 3);
    InvokeLeaves(p, m, SETTER, c, START, 5, START, B1, 1);
    // f, which leaves that bit
    RunCalls(p, m, CALLER, 0, SETTER, c, START, 6);
    var back := Invoke(p, m, map[], SETTER, c, START, 5).file;
    RestrictAt(back, {}, B1);
    RunDoes(p, m, CALLER, 1, {}, {B0}, back, START, 5);
    RunLeaves(p, m, CALLER, 2, Override(back, map[], {B0}), Noted(0), 4);
    InvokeLeaves(p, m, CALLER, c, START, 7, Noted(0), B1, 1);
    // e
    RunCalls(p, m, TOP, 0, CALLER, c, START, 8);
    var got := Invoke(p, m, map[], CALLER, c, START, 7).file;
    RestrictAt(got, {B0, B1}, B1);
    RunDoes(p, m, TOP, 1, {B0, B1}, {}, got, Noted(0), 7);
    RunLeaves(p, m, TOP, 2, Override(got, map[], {}), Noted(1), 6);
    InvokeLeaves(p, m, TOP, c, START, 9, Noted(1), B1, 1);
  }

  lemma FieldLocals()
    ensures LocalUnits(Parts(), PartsSolution(), TOP) == {B0, B1}
    ensures LocalUnits(Parts(), PartsSolution(), CALLER) == {B0} && LocalUnits(Parts(), PartsSolution(), SETTER) == {B1}
  {
    hide CONDITION;
    InCondition({B0, B1});
    InCondition({B0});
    InCondition({B1});
  }

  function FieldBefore(f: Name, i: nat): set<Reg> {
    if (f == CALLER && i == 2) || (f == SETTER && i == 1) then FIELD else {}
  }

  function FieldAfter(f: Name, i: nat): set<Reg> {
    if f == TOP && i == 0 then FIELD else {}
  }

  lemma FieldStores(f: Name, i: nat)
    requires f in Parts().functions && i < |Parts().functions[f].nodes|
    ensures Stores(Parts(), PartsSolution(), f, Parts().functions[f].nodes[i])
      * LocalUnits(Parts(), PartsSolution(), f) ==
      if f == CALLER && i == 2 then {B0} else if f == SETTER && i == 1 then {B1} else {}
  {
    hide LocalUnits, FIELD;
    FieldLocals();
  }

  lemma FieldLoads(f: Name, i: nat)
    requires f in Parts().functions && i < |Parts().functions[f].nodes|
    ensures f in PartsSolution().livebefore
    ensures Loads(Parts(), PartsSolution(), f, i) * LocalUnits(Parts(), PartsSolution(), f) == if f == TOP && i == 0
      then {B0, B1} else {}
  {
    hide LocalUnits, FIELD, LiveAfter;
    FieldLocals();
    FieldAfterCalls();
  }

  lemma FieldEmits(f: Name, i: nat)
    requires f in Parts().functions && i < |Parts().functions[f].nodes|
    ensures f in PartsSolution().livebefore
    ensures Emit(Parts(), PartsSolution(), f, i) == Block(Parts().functions[f].nodes[i], false, FieldBefore(f, i),
      FieldAfter(f, i))
  {
    hide Widen, LocalUnits, LiveAfter, FIELD, Stores, Loads;
    FieldStores(f, i);
    FieldLoads(f, i);
    NoneWide();
    FieldWide();
  }

  lemma FieldAfterCalls()
    ensures LiveAfter(Parts(), PartsSolution(), TOP, 0) == {B0, B1}
      && LiveAfter(Parts(), PartsSolution(), CALLER, 0) == {B1}
  {
    hide Out;
    OutOfOne(1, PartsSolution().livebefore[TOP]);
    OutOfOne(1, PartsSolution().livebefore[CALLER]);
  }

  ghost predicate FieldTargetIs(t: Target, blocks: seq<Block>) {
    t.locals == FIELD && t.loaded == {} && t.blocks == blocks
  }

  ghost predicate FieldCode(code: Code) {
    && TOP in code && CALLER in code && SETTER in code
    && FieldTargetIs(code[TOP], [Block(CallTo(CALLER, 1), false, {}, FIELD),
      Block(Does({B0, B1}, {}, 2), false, {}, {}), Block(LEAVE, false, {}, {})])
    && FieldTargetIs(code[CALLER],
      [Block(CallTo(SETTER, 1), false, {}, {}), Block(Does({}, {B0}, 2), false, {}, {}),
      Block(LEAVE, false, FIELD, {})])
    && FieldTargetIs(code[SETTER], [Block(Does({}, {B1}, 1), false, {}, {}), Block(LEAVE, false, FIELD, {})])
  }

  lemma FieldBlock(code: Code, f: Name)
    requires IsTransformedProgram(Parts(), PartsSolution(), code) && f in Parts().functions
    ensures f in code && code[f].locals == Locals(Parts(), PartsSolution(), f)
      && code[f].loaded == Widen({}) * code[f].locals
    ensures |code[f].blocks| == |Parts().functions[f].nodes|
    ensures forall i | 0 <= i < |code[f].blocks| ::
      code[f].blocks[i] == Block(Parts().functions[f].nodes[i], false, FieldBefore(f, i), FieldAfter(f, i))
  {
    hide Widen, LocalUnits, Emit, FieldBefore, FieldAfter;
    assert IsTransformed(Parts(), PartsSolution(), f, code[f]);
    forall i | 0 <= i < |Parts().functions[f].nodes|
      ensures code[f].blocks[i] == Block(Parts().functions[f].nodes[i], false, FieldBefore(f, i), FieldAfter(f, i))
    {
      FieldEmits(f, i);
    }
  }

  lemma LocalsIs(p: Program, s: Solution, f: Name)
    requires f in p.functions
    ensures Locals(p, s, f) == Widen(LocalUnits(p, s, f))
  {
  }

  lemma FieldNames(f: Name)
    ensures f in Parts().functions <==> f in {TOP, CALLER, SETTER}
  {
  }

  lemma FieldAllLocal(f: Name)
    requires f in Parts().functions
    ensures Locals(Parts(), PartsSolution(), f) == FIELD
  {
    hide *;
    FieldNames(f);
    LocalsIs(Parts(), PartsSolution(), f);
    FieldLocals();
    FieldWide();
  }

  lemma FieldBlocks(code: Code)
    requires IsTransformedProgram(Parts(), PartsSolution(), code)
    ensures FieldCode(code)
  {
    hide Widen, LocalUnits, Emit, FIELD, IsTransformedProgram, Locals, PartsSolution;
    NoneWide();
    FieldBlock(code, TOP);
    FieldBlock(code, CALLER);
    FieldBlock(code, SETTER);
    FieldAllLocal(TOP);
    FieldAllLocal(CALLER);
    FieldAllLocal(SETTER);
  }

  lemma FieldTarget(p: Program, code: Code, m: Meaning)
    requires p == Parts() && m == SetAndNote(SETTER, B1) && WellFormed(p)
    requires FieldCode(code) && WellFormedCode(code)
    ensures Leaves(TargetInvoke(p, code, m, map[], TOP, map[], START, 9), Noted(0), B1, 0)
  {
    hide WellFormed, WellFormedCode, TargetRun, TargetInvoke, Override, Restrict, View, Widen;
    var c: File := map[];
    var l := Restrict(c, {});
    RestrictAt(c, {}, B1);
    // g stores the whole field
    var c1 := Override(c, l, {});
    var c2 := Override(c1, Restrict(c1, {}), {});
    var lg, cg := TargetDoes(p, code, m, SETTER, 0, {}, {B1}, Restrict(c2, {}), c2, START, 4);
    TargetLeaves(p, code, m, SETTER, 1, FIELD, lg, cg, START, 3);
    TargetInvokeLeaves(p, code, m, SETTER, c2, START, 5, START, B1, 1);
    // f does not load it back, and stores its own local
    RestrictAt(c1, {}, B1);
    TargetCalls(p, code, m, CALLER, 0, SETTER, {}, {}, Restrict(c1, {}), c1, START, 6);
    var back := TargetInvoke(p, code, m, map[], SETTER, c2, START, 5).file;
    var lf := Override(Restrict(c1, {}), back, {});
    RestrictAt(View(lf, back, FIELD), {}, B1);
    var l2, c3 := TargetDoes(p, code, m, CALLER, 1, {}, {B0}, lf, back, START, 5);
    TargetLeaves(p, code, m, CALLER, 2, FIELD, l2, c3, Noted(0), 4);
    TargetInvokeLeaves(p, code, m, CALLER, c1, START, 7, Noted(0), B1, 0);
    // e
    TargetCalls(p, code, m, TOP, 0, CALLER, {}, FIELD, l, c, START, 8);
    var got := TargetInvoke(p, code, m, map[], CALLER, c1, START, 7).file;
    var le := Override(l, got, FIELD);
    ViewAt(le, got, FIELD, B1);
    RestrictAt(View(le, got, FIELD), {B0, B1}, B1);
    var l3, c4 := TargetDoes(p, code, m, TOP, 1, {B0, B1}, {}, le, got, Noted(0), 7);
    TargetLeaves(p, code, m, TOP, 2, {}, l3, c4, Noted(0), 6);
    TargetInvokeLeaves(p, code, m, TOP, c, START, 9, Noted(0), B1, 0);
  }

  lemma FieldConventional()
    ensures Conventional(Parts(), SetAndNote(SETTER, B1), PartsSolution())
  {
    hide Line, WellFormed, Reachable, Lines, WritesFound, Conventional;
    PartsLines();
    forall f | f in Parts().functions ensures WritesFound(Parts().functions[f].nodes, Parts().functions[f].written) {
      WritesNone(Parts().functions[f].nodes);
    }
    LinesConventional(Parts(), SetAndNote(SETTER, B1), PartsSolution());
  }

  lemma SetterWrites()
    ensures !Untouched(Parts(), PartsSolution(), SETTER, B1)
  {
    hide RunsWithin;
    assert Does({}, {B1}, 1) in Parts().functions[SETTER].nodes by {
      assert Parts().functions[SETTER].nodes[0] == Does({}, {B1}, 1);
    }
  }

  lemma FieldFails()
    ensures !AllComeBack(Parts(), PartsSolution())
  {
    hide LocalUnits, Locals, LiveAfter, Emit, Untouched, FIELD;
    FieldAfterCalls();
    FieldEmits(CALLER, 0);
    FieldAllLocal(CALLER);
    BitsInField();
    SetterWrites();
    assert !ComesBackAt(Parts(), PartsSolution(), CALLER, 0, B1);
    assert B1 in LiveAfter(Parts(), PartsSolution(), CALLER, 0) && B1 in Parts().localised by {
      InCondition({B1});
    }
    assert !ComesBack(Parts(), PartsSolution(), CALLER, 0);
  }

  /** Whatever the conversion of this program gives, the bit is lost: the caller stores the
      whole field from a local it did not load the returned bit into. */
  lemma FieldBitLost(targets: seq<Name>, s: Solution, code: Code)
    requires Converted(Parts(), targets, true, s, code)
    ensures Conventional(Parts(), SetAndNote(SETTER, B1), s) && !AllComeBack(Parts(), s)
    ensures ToldApart(Parts(), code, SetAndNote(SETTER, B1), TOP, 9)
  {
    hide *;
    ConvertedHas(Parts(), targets, s, code);
    PartsOnly(targets, s);
    PartsLines();
    FieldConventional();
    FieldFails();
    FieldBlocks(code);
    FieldSource(Parts(), SetAndNote(SETTER, B1));
    FieldTarget(Parts(), code, SetAndNote(SETTER, B1));
    Told(Parts(), code, SetAndNote(SETTER, B1), TOP, 9, B1, 1, 1, 0, 0);
  }
}
